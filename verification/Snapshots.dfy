/** Resolving one profile generation with its secrets (`profiles.py`). */
module Snapshots {
  import opened Wrappers
  import opened References
  import opened Documents
  import opened TwoStores
  import opened MutationOutcomes
  import opened Stores
  import opened Locking

  /** `resolve_profile_snapshot`, under the lock: whatever fails, a snapshot that is returned holds
      exactly the values supplied for the generation it read, and if nothing fails a stored profile
      always resolves. */
  method ResolveProfileSnapshot(c: Connection, name: string) returns (result: Result<Snapshot, Failure>)
    requires c.Valid() && Consistent(c.Current())
    modifies c`faults
    ensures c.faults >= old(c.faults)
    ensures result.Ok? ==>
              && name in c.database.profiles
              && Coherent(c.history, result.value)
              && result.value.secrets.Keys == ProfileReferences(result.value.document).Keys
              && result.value.document == c.database.profiles[name].document
    ensures c.faults == old(c.faults) ==> (result.Ok? <==> name in c.database.profiles)
  {
    hide ProfileReferences, IsRun, Supplied, Consistent, RowRecorded;
    var reading := c.Draw();
    if !reading.Works? {
      return Err(DatabaseError);
    }
    if name !in c.database.profiles {
      return Err(StoreError(1));
    }
    var row := c.database.profiles[name];
    LiveResolves(c.Current(), name);
    var references := ProfileReferences(row.document);
    var secrets: map<Field, Secret> := map[];
    var left := references.Keys;
    while left != {}
      invariant left <= references.Keys && c.faults == old(c.faults)
      invariant secrets.Keys == references.Keys - left
      invariant forall field :: field in secrets ==> secrets[field] == c.history.issued[references[field]]
      decreases left
    {
      var field :| field in left;
      left := left - {field};
      var secret := c.GetSecret(references[field]);
      if secret.None? {
        return Err(SecretStoreError);
      }
      secrets := secrets[field := secret.value];
    }
    Resolved(c.Current(), name, secrets);
    return Ok(Snapshot(name, row.id, row.revision, row.document, secrets));
  }

  lemma LiveResolves(w: World, name: string)
    requires Consistent(w) && name in w.database.profiles
    ensures var references := ProfileReferences(w.database.profiles[name].document);
            forall field :: field in references ==>
              && references[field] in w.vault && references[field] in w.history.issued
              && w.vault[references[field]] == w.history.issued[references[field]]
  {
    hide ProfileReferences, RowRecorded;
    var references := ProfileReferences(w.database.profiles[name].document);
    forall field | field in references ensures references[field] in w.vault {
      assert IsLive(w.database.profiles, references[field]);
    }
  }

  lemma Resolved(w: World, name: string, secrets: map<Field, Secret>)
    requires Consistent(w) && name in w.database.profiles
    requires var references := ProfileReferences(w.database.profiles[name].document);
             && secrets.Keys == references.Keys
             && forall field :: field in references ==>
                  references[field] in w.history.issued && secrets[field] == w.history.issued[references[field]]
    ensures var row := w.database.profiles[name];
            Coherent(w.history, Snapshot(name, row.id, row.revision, row.document, secrets))
  {
    hide ProfileReferences;
    var row := w.database.profiles[name];
    assert RowRecorded(w.history, row);
    assert secrets == w.history.generations[(row.id, row.revision)].secrets;
  }
}
