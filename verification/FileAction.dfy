/** The request that Android makes of a staged action (`FileActionProtocol.begin`), and what the Python
    runtime makes of it: the limits of the two sides fit together. */
module FileActions {
  import opened Wrappers
  import Quota = ReceiverQuota
  import Stager = FileTransferStagers

  /** One entry of the request: the staged file and what was prepared for its upload. */
  function Entry(m: Stager.Manifest, nonce: string): Quota.Manifest {
    Quota.Manifest(m.id, m.field, m.name, m.contentType, Some(m.size as int),
                   Some(Quota.Bulk("SESSION-A256GCM-v2", nonce, m.size as int + 16)))
  }

  function Request(actionData: string, ms: seq<Stager.Manifest>, nonces: seq<string>): Quota.FileRequest
    requires |ms| == |nonces|
  {
    Quota.FileRequest(Some(actionData), seq(|ms|, i requires 0 <= i < |ms| => Entry(ms[i], nonces[i])))
  }

  lemma EntryIsValid(m: Stager.Manifest, nonce: string)
    requires Stager.ValidManifest(m) && nonce != ""
    ensures Quota.ValidManifest(Entry(m, nonce))
  {
    assert Stager.IsBlank("");
  }

  lemma {:induction false} SameBytes(ms: seq<Stager.Manifest>, nonces: seq<string>, data: string)
    requires |ms| == |nonces|
    requires forall i :: 0 <= i < |ms| ==> Stager.ValidManifest(ms[i]) && nonces[i] != ""
    ensures Quota.AllValid(Request(data, ms, nonces).files)
    ensures Quota.FileBytes(Quota.AcceptedAll(Request(data, ms, nonces).files)) == Stager.SizeOf(ms)
    decreases |ms|
  {
    var entries := Request(data, ms, nonces).files;
    forall i | 0 <= i < |ms| ensures Quota.ValidManifest(entries[i]) {
      EntryIsValid(ms[i], nonces[i]);
    }
    if ms != [] {
      var n := |ms| - 1;
      assert Request(data, ms[..n], nonces[..n]).files == entries[..n];
      SameBytes(ms[..n], nonces[..n], data);
      Quota.AcceptedPrefix(entries, n);
    }
  }

  /** Whatever the staging area hands over, the Wisp admits, as long as the transfer is new and the
      sender's and the total quota have room for it: no name, id, type, size or count that is fine on
      Android is refused there. */
  lemma StagedIsAdmitted(table: Quota.Table, key: Quota.Key, actionData: string, ms: seq<Stager.Manifest>,
      nonces: seq<string>)
    requires Stager.Acceptable(ms, 0) && |nonces| == |ms| && forall i :: 0 <= i < |ms| ==> nonces[i] != ""
    requires key.operationId != ""
    ensures Quota.Admissible(table, key, Request(actionData, ms, nonces))
            <==> && key !in table && |Quota.SenderKeys(table, key.sender)| < 4
                 && Quota.TableBytes(table) + Stager.SizeOf(ms) <= 268435456
  {
    var entries := Request(actionData, ms, nonces).files;
    SameBytes(ms, nonces, actionData);
    hide Quota.FileBytes, Stager.SizeOf;
    var files := Quota.AcceptedAll(entries);
    forall i, j | 0 <= i < j < |files| ensures files[i].id != files[j].id {
      assert ms[i].id != ms[j].id;
    }
  }
}
