/** The admission rule of file actions in the Python runtime (client.py, `_begin_file_action`):
    which manifests are accepted, given the transfers that are already active. */
module ReceiverQuota {
  import opened MapSums
  import opened Wrappers

  const MAX_FILES_PER_ACTION: nat := 32
  const MAX_FILE_ACTION_BYTES: nat := 256 * 1024 * 1024
  const MAX_ACTIVE_TRANSFERS_PER_SENDER: nat := 4
  const TAG_BYTES: nat := 16

  datatype Key = Key(sender: string, operationId: string)

  datatype Bulk = Bulk(algorithm: string, nonce: string, ciphertextSize: int)

  /** One entry of the `files` list. `size` is None when the JSON value is not an integer. */
  datatype Manifest = Manifest(id: string, field: string, name: string, contentType: string,
                               size: Option<int>, bulk: Option<Bulk>)

  /** The body of a `file_begin`. `actionData` is None when the JSON value is not an object; a `files`
      value that is not a list is rejected just as an empty list is. */
  datatype FileRequest = FileRequest(actionData: Option<string>, files: seq<Manifest>)

  datatype IncomingFile = IncomingFile(id: string, field: string, name: string, contentType: string,
                                       size: nat, bulk: Bulk)

  /** How far the task that receives a transfer has come. `Dead` is a task that was cancelled
      before it ever ran; `Closing` has recorded its outcome and still has to leave the table. */
  datatype Task = NoTask | Receiving | Running | Closing | Dead

  datatype Transfer = Transfer(wispId: string, files: seq<IncomingFile>, createdAt: real, task: Task, cancelled: bool)

  type Table = map<Key, Transfer>

  // ---------------------------------------------------------------- sums over the table

  function FileBytes(files: seq<IncomingFile>): nat {
    if files == [] then 0 else FileBytes(files[..|files| - 1]) + files[|files| - 1].size
  }

  ghost function BytesByKey(table: Table): map<Key, nat> {
    map k | k in table :: FileBytes(table[k].files)
  }

  ghost function TableBytes(table: Table): nat {
    Total(BytesByKey(table))
  }

  lemma TableBytesAt(table: Table, k: Key)
    requires k in table
    ensures TableBytes(table) == FileBytes(table[k].files) + TableBytes(table - {k})
  {
    TotalAt(BytesByKey(table), k);
    assert BytesByKey(table - {k}) == BytesByKey(table) - {k};
  }

  /** The reserved bytes are the sizes of all files of all transfers. */
  lemma BytesAddUp(table: Table, k: Key, files: seq<IncomingFile>, file: IncomingFile)
    ensures FileBytes([]) == 0 && FileBytes(files + [file]) == FileBytes(files) + file.size
    ensures TableBytes(map[]) == 0
    ensures k in table ==> TableBytes(table) == FileBytes(table[k].files) + TableBytes(table - {k})
  {
    assert (files + [file])[..|files|] == files;
    assert BytesByKey(map[]) == map[];
    if k in table {
      TableBytesAt(table, k);
    }
  }

  lemma TableBytesUpdate(table: Table, k: Key, t: Transfer)
    ensures TableBytes(table[k := t]) == TableBytes(table - {k}) + FileBytes(t.files)
    ensures k !in table ==> table - {k} == table
  {
    TableBytesAt(table[k := t], k);
    assert table[k := t] - {k} == table - {k};
  }

  lemma TableBytesSubset(part: Table, whole: Table)
    requires part.Keys <= whole.Keys && forall k :: k in part ==> part[k].files == whole[k].files
    ensures TableBytes(part) <= TableBytes(whole)
  {
    TotalOfPart(BytesByKey(part), BytesByKey(whole));
  }

  ghost function SenderKeys(table: Table, sender: string): set<Key> {
    set k | k in table && k.sender == sender
  }

  // ---------------------------------------------------------------- the admission rule

  predicate ValidManifest(m: Manifest) {
    && 0 < |m.id| <= 128
    && 0 < |m.field| <= 128
    && 0 < |m.name| <= 512
    && |m.contentType| <= 128
    && m.size.Some? && m.size.value >= 0
    && m.bulk.Some?
    && m.bulk.value.algorithm == "SESSION-A256GCM-v2"
    && m.bulk.value.nonce != ""
    && m.bulk.value.ciphertextSize == m.size.value + TAG_BYTES
  }

  function Accepted(m: Manifest): IncomingFile
    requires ValidManifest(m)
  {
    IncomingFile(m.id, m.field, m.name, m.contentType, m.size.value, m.bulk.value)
  }

  /** Every entry is fine by itself. */
  predicate AllValid(ms: seq<Manifest>) {
    forall i :: 0 <= i < |ms| ==> ValidManifest(ms[i])
  }

  function AcceptedAll(ms: seq<Manifest>): (r: seq<IncomingFile>)
    requires AllValid(ms)
  {
    seq(|ms|, i requires 0 <= i < |ms| => Accepted(ms[i]))
  }

  ghost predicate DistinctIds(files: seq<IncomingFile>) {
    forall i, j :: 0 <= i < j < |files| ==> files[i].id != files[j].id
  }

  /** The files of one action are acceptable next to `reserved` bytes that are already promised. */
  ghost predicate AcceptableFiles(ms: seq<Manifest>, reserved: nat) {
    && 1 <= |ms| <= MAX_FILES_PER_ACTION
    && AllValid(ms)
    && DistinctIds(AcceptedAll(ms))
    && reserved + FileBytes(AcceptedAll(ms)) <= MAX_FILE_ACTION_BYTES
  }

  ghost predicate Admissible(table: Table, key: Key, request: FileRequest) {
    && key.operationId != ""
    && request.actionData.Some?
    && key !in table
    && |SenderKeys(table, key.sender)| < MAX_ACTIVE_TRANSFERS_PER_SENDER
    && AcceptableFiles(request.files, TableBytes(table))
  }

  /** The bounds every reachable table keeps. */
  ghost predicate WithinQuota(table: Table) {
    && TableBytes(table) <= MAX_FILE_ACTION_BYTES
    && (forall sender :: |SenderKeys(table, sender)| <= MAX_ACTIVE_TRANSFERS_PER_SENDER)
    && (forall k :: k in table ==>
          k.operationId != "" && 1 <= |table[k].files| <= MAX_FILES_PER_ACTION && DistinctIds(table[k].files))
  }

  lemma SenderKeysUpdate(table: Table, key: Key, t: Transfer, sender: string)
    requires key !in table
    ensures |SenderKeys(table[key := t], sender)|
            == |SenderKeys(table, sender)| + if sender == key.sender then 1 else 0
  {
    var before, after := SenderKeys(table, sender), SenderKeys(table[key := t], sender);
    if sender == key.sender {
      assert after == before + {key};
    } else {
      assert after == before;
    }
  }

  lemma AdmissionKeepsQuota(table: Table, key: Key, request: FileRequest, t: Transfer)
    requires WithinQuota(table) && Admissible(table, key, request) && t.files == AcceptedAll(request.files)
    ensures WithinQuota(table[key := t])
  {
    TableBytesUpdate(table, key, t);
    var next := table[key := t];
    forall sender: string {:trigger SenderKeys(next, sender)}
      ensures |SenderKeys(next, sender)| <= MAX_ACTIVE_TRANSFERS_PER_SENDER
    {
      SenderKeysUpdate(table, key, t, sender);
    }
  }

  /** Removing transfers, or changing anything but their files, keeps the bounds. */
  lemma ShrinkingKeepsQuota(part: Table, whole: Table)
    requires WithinQuota(whole)
    requires part.Keys <= whole.Keys && forall k :: k in part ==> part[k].files == whole[k].files
    ensures WithinQuota(part)
  {
    TableBytesSubset(part, whole);
    forall sender: string {:trigger SenderKeys(part, sender)}
      ensures |SenderKeys(part, sender)| <= MAX_ACTIVE_TRANSFERS_PER_SENDER
    {
      SubsetSize(SenderKeys(part, sender), SenderKeys(whole, sender));
    }
  }

  lemma {:induction false} SubsetSize<T>(a: set<T>, b: set<T>)
    requires a <= b
    ensures |a| <= |b|
    decreases |b|
  {
    if a != {} {
      var x :| x in a;
      SubsetSize(a - {x}, b - {x});
    }
  }

  // ---------------------------------------------------------------- the loops of the source

  /** `reserved = sum(file.size for transfer in ... for file in ...)`. */
  method Reserved(table: Table) returns (total: nat)
    ensures total == TableBytes(table)
  {
    total := 0;
    var rest := table;
    while rest != map[]
      invariant rest.Keys <= table.Keys && forall k :: k in rest ==> rest[k] == table[k]
      invariant total + TableBytes(rest) == TableBytes(table)
      decreases |rest|
    {
      var k :| k in rest;
      TableBytesAt(rest, k);
      var bytes := 0;
      var files := rest[k].files;
      for i := 0 to |files|
        invariant bytes == FileBytes(files[..i])
      {
        assert files[..i + 1][..i] == files[..i];
        bytes := bytes + files[i].size;
      }
      assert files[..|files|] == files;
      total := total + bytes;
      rest := rest - {k};
    }
  }

  ghost function OfSender(keys: set<Key>, sender: string): set<Key> {
    set k | k in keys && k.sender == sender
  }

  lemma OfSenderSplit(keys: set<Key>, k: Key, sender: string)
    requires k in keys
    ensures |OfSender(keys, sender)| == |OfSender(keys - {k}, sender)| + if k.sender == sender then 1 else 0
  {
    if k.sender == sender {
      assert OfSender(keys, sender) == OfSender(keys - {k}, sender) + {k};
    } else {
      assert OfSender(keys, sender) == OfSender(keys - {k}, sender);
    }
  }

  /** `sum(1 for transfer_sender, _ in self._transfers if transfer_sender == sender)`. */
  method ActiveForSender(table: Table, sender: string) returns (count: nat)
    ensures count == |SenderKeys(table, sender)|
  {
    count := 0;
    var rest := table.Keys;
    while rest != {}
      invariant count + |OfSender(rest, sender)| == |OfSender(table.Keys, sender)|
      decreases |rest|
    {
      var k :| k in rest;
      OfSenderSplit(rest, k, sender);
      if k.sender == sender {
        count := count + 1;
      }
      rest := rest - {k};
    }
    assert OfSender({}, sender) == {};
    assert SenderKeys(table, sender) == OfSender(table.Keys, sender);
  }

  lemma FileBytesMonotone(files: seq<IncomingFile>, n: nat)
    requires n <= |files|
    ensures FileBytes(files[..n]) <= FileBytes(files)
    decreases |files| - n
  {
    if n == |files| {
      assert files[..n] == files;
    } else {
      assert files[..n + 1][..n] == files[..n];
      FileBytesMonotone(files, n + 1);
    }
  }

  lemma AcceptedPrefix(ms: seq<Manifest>, n: nat)
    requires n <= |ms| && AllValid(ms)
    ensures AcceptedAll(ms)[..n] == AcceptedAll(ms[..n])
  {
  }

  lemma TooManyBytes(ms: seq<Manifest>, n: nat, reserved: nat)
    requires n <= |ms| && AllValid(ms[..n])
    requires reserved + FileBytes(AcceptedAll(ms[..n])) > MAX_FILE_ACTION_BYTES
    ensures !AcceptableFiles(ms, reserved)
  {
    if AllValid(ms) {
      AcceptedPrefix(ms, n);
      FileBytesMonotone(AcceptedAll(ms), n);
    }
  }

  lemma DuplicateId(ms: seq<Manifest>, n: nat, reserved: nat)
    requires n < |ms| && AllValid(ms[..n])
    requires exists f :: f in AcceptedAll(ms[..n]) && f.id == ms[n].id
    ensures !AcceptableFiles(ms, reserved)
  {
    if AllValid(ms) {
      var i :| 0 <= i < n && AcceptedAll(ms[..n])[i].id == ms[n].id;
      var all := AcceptedAll(ms);
      assert all[i].id == all[n].id;
    }
  }

  lemma AcceptedSnoc(ms: seq<Manifest>, n: nat)
    requires n < |ms| && AllValid(ms[..n]) && ValidManifest(ms[n])
    ensures AcceptedAll(ms[..n + 1]) == AcceptedAll(ms[..n]) + [Accepted(ms[n])]
    ensures FileBytes(AcceptedAll(ms[..n + 1])) == FileBytes(AcceptedAll(ms[..n])) + ms[n].size.value
  {
    var before, after := AcceptedAll(ms[..n]), AcceptedAll(ms[..n + 1]);
    assert after[..n] == before;
  }

  /** The checks of one pass of the manifest loop, in the order of the source; only the size
      checks depend on what came before. */
  predicate WellFormed(m: Manifest, files: seq<IncomingFile>) {
    && m.id != "" && |m.id| <= 128 && (forall f :: f in files ==> f.id != m.id)
    && m.field != "" && |m.field| <= 128
    && m.name != "" && |m.name| <= 512
    && |m.contentType| <= 128
    && m.size.Some? && m.size.value >= 0
  }

  predicate ValidBulk(m: Manifest)
    requires m.size.Some?
  {
    && m.bulk.Some?
    && m.bulk.value.algorithm == "SESSION-A256GCM-v2"
    && m.bulk.value.nonce != ""
    && m.bulk.value.ciphertextSize == m.size.value + TAG_BYTES
  }

  lemma NoEntries()
    ensures AllValid([]) && AcceptedAll([]) == [] && DistinctIds([]) && FileBytes([]) == 0
  {
  }

  lemma WellFormedAndBulk(m: Manifest, files: seq<IncomingFile>)
    ensures WellFormed(m, files) ==> m.size.Some? && m.size.value >= 0 && (ValidManifest(m) <==> ValidBulk(m))
    ensures !WellFormed(m, files) ==> !ValidManifest(m) || exists f :: f in files && f.id == m.id
  {
  }

  /** A bad entry, or one whose id is taken, spoils the list. */
  lemma BadEntry(ms: seq<Manifest>, n: nat, reserved: nat)
    requires n < |ms| && AllValid(ms[..n])
    requires !ValidManifest(ms[n]) || exists f :: f in AcceptedAll(ms[..n]) && f.id == ms[n].id
    ensures !AcceptableFiles(ms, reserved)
  {
    if ValidManifest(ms[n]) {
      DuplicateId(ms, n, reserved);
    }
  }

  lemma NextEntry(ms: seq<Manifest>, n: nat, files: seq<IncomingFile>)
    requires n < |ms| && AllValid(ms[..n]) && files == AcceptedAll(ms[..n]) && ValidManifest(ms[n])
    ensures AllValid(ms[..n + 1]) && AcceptedAll(ms[..n + 1]) == files + [Accepted(ms[n])]
    ensures FileBytes(files + [Accepted(ms[n])]) == FileBytes(files) + ms[n].size.value
    ensures DistinctIds(files) && WellFormed(ms[n], files) ==> DistinctIds(files + [Accepted(ms[n])])
  {
    AcceptedSnoc(ms, n);
    if DistinctIds(files) && WellFormed(ms[n], files) {
      assert forall i :: 0 <= i < |files| ==> files[i] in files;
    }
  }

  lemma WholeList(ms: seq<Manifest>, reserved: nat)
    requires 1 <= |ms| <= MAX_FILES_PER_ACTION && AllValid(ms) && DistinctIds(AcceptedAll(ms))
    ensures AcceptableFiles(ms, reserved) <==> reserved + FileBytes(AcceptedAll(ms)) <= MAX_FILE_ACTION_BYTES
  {
  }

  /** The manifest loop. It rejects at the first bad entry or at the first entry that makes the
      running total too large, yet its verdict depends only on the list as a whole. */
  method CheckManifests(ms: seq<Manifest>, reserved: nat) returns (result: Option<seq<IncomingFile>>)
    requires 1 <= |ms| <= MAX_FILES_PER_ACTION
    ensures result.Some? <==> AcceptableFiles(ms, reserved)
    ensures result.Some? ==> result.value == AcceptedAll(ms)
  {
    hide *;
    NoEntries();
    assert ms[..0] == [];
    var files: seq<IncomingFile> := [];
    var total := 0;
    for index := 0 to |ms|
      invariant AllValid(ms[..index]) && files == AcceptedAll(ms[..index]) && DistinctIds(files)
      invariant total == FileBytes(files)
      invariant index > 0 ==> reserved + total <= MAX_FILE_ACTION_BYTES
    {
      var m := ms[index];
      WellFormedAndBulk(m, files);
      if !WellFormed(m, files) {
        BadEntry(ms, index, reserved);
        return None;
      }
      total := total + m.size.value;
      if reserved + total > MAX_FILE_ACTION_BYTES {
        if ValidManifest(m) {
          NextEntry(ms, index, files);
          TooManyBytes(ms, index + 1, reserved);
        } else {
          BadEntry(ms, index, reserved);
        }
        return None;
      }
      if !ValidBulk(m) {
        BadEntry(ms, index, reserved);
        return None;
      }
      NextEntry(ms, index, files);
      files := files + [Accepted(m)];
    }
    assert ms[..|ms|] == ms;
    WholeList(ms, reserved);
    result := Some(files);
  }

  /** All of `_begin_file_action` up to the point where it changes the table. */
  method Admit(table: Table, key: Key, request: FileRequest) returns (result: Option<seq<IncomingFile>>)
    ensures result.Some? <==> Admissible(table, key, request)
    ensures result.Some? ==> result.value == AcceptedAll(request.files)
  {
    if key.operationId == "" || request.files == [] { return None; }
    if request.actionData.None? { return None; }
    if |request.files| > MAX_FILES_PER_ACTION || key in table { return None; }
    var active := ActiveForSender(table, key.sender);
    if active >= MAX_ACTIVE_TRANSFERS_PER_SENDER {
      return None;
    }
    var reserved := Reserved(table);
    result := CheckManifests(request.files, reserved);
  }
}
