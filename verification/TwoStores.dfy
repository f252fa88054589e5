/** The durable state of Kantrip: a transactional database beside a vault that knows no transactions.

    The database holds profile rows and the cleanup journal; the vault holds secrets. Every change
    that can survive a crash is one `Action`. `StepKeepsConsistent` shows that each action the
    program takes keeps the two stores consistent, so a crash between any two of them does too. */
module TwoStores {
  import opened Wrappers
  import opened References
  import opened Documents

  datatype CleanupRecord = CleanupRecord(recordId: Uuid, reference: Reference, createdAt: string)

  datatype Row = Row(id: Uuid, revision: nat, document: Document)

  datatype Database = Database(profiles: map<string, Row>, journal: map<Uuid, CleanupRecord>)

  /** One revision of a profile and the secret values its user supplied for it. */
  datatype Generation = Generation(document: Document, secrets: map<Field, Secret>)

  /** What happened so far, which no program can read back: the secret behind every reference ever
      minted, every profile generation ever committed, and every profile identity ever used. */
  datatype History = History(issued: map<Reference, Secret>, generations: map<(Uuid, nat), Generation>,
                             owners: set<Uuid>)

  datatype World = World(database: Database, vault: map<Reference, Secret>, history: History)

  // The invariant

  predicate IsLive(profiles: map<string, Row>, reference: Reference) {
    exists name :: name in profiles && reference in ProfileReferences(profiles[name].document).Values
  }

  predicate IsJournaled(journal: map<Uuid, CleanupRecord>, reference: Reference) {
    exists id :: id in journal && journal[id].reference == reference
  }

  /** Rows have distinct identities and own the references they hold. */
  ghost predicate RowsKeyed(profiles: map<string, Row>) {
    && (forall name :: name in profiles ==>
          && profiles[name].document.id == profiles[name].id
          && profiles[name].revision >= 1
          && WellOwned(profiles[name].document))
    && (forall a, b :: a in profiles && b in profiles && a != b ==> profiles[a].id != profiles[b].id)
  }

  /** Journal rows are keyed by their identity, and no reference is queued twice. */
  ghost predicate JournalKeyed(journal: map<Uuid, CleanupRecord>) {
    && (forall id :: id in journal ==> journal[id].recordId == id && IsCanonicalUuid(id))
    && (forall i, j :: i in journal && j in journal && i != j ==> journal[i].reference != journal[j].reference)
  }

  /** Every live reference has its secret, every secret is live or queued for deletion, and nothing
      live is queued. */
  ghost predicate Balanced(database: Database, vault: map<Reference, Secret>) {
    && (forall r :: IsLive(database.profiles, r) ==> r in vault)
    && (forall r :: r in vault ==> IsLive(database.profiles, r) || IsJournaled(database.journal, r))
    && (forall r :: IsJournaled(database.journal, r) ==> !IsLive(database.profiles, r))
  }

  /** The stores agree with the history: secrets are the supplied ones, and each row is the newest
      generation of its identity. */
  ghost predicate Recorded(w: World) {
    && (forall r :: r in w.vault ==> r in w.history.issued && w.vault[r] == w.history.issued[r])
    && (forall r :: r in w.history.issued ==> IsCanonical(r) && w.history.issued[r] != "")
    && (forall id :: id in w.database.journal ==> w.database.journal[id].reference in w.history.issued)
    && (forall name :: name in w.database.profiles ==> RowRecorded(w.history, w.database.profiles[name]))
    && (forall id, revision :: (id, revision) in w.history.generations ==> id in w.history.owners)
  }

  ghost predicate RowRecorded(history: History, row: Row) {
    && row.id in history.owners
    && (row.id, row.revision) in history.generations
    && var generation := history.generations[(row.id, row.revision)];
    && generation.document == row.document
    && Supplies(history.issued, ProfileReferences(row.document), generation.secrets)
    && (forall revision :: (row.id, revision) in history.generations ==> revision <= row.revision)
  }

  /** The references stand for exactly these field values. */
  predicate Supplies(issued: map<Reference, Secret>, references: map<Field, Reference>,
                     secrets: map<Field, Secret>) {
    && secrets.Keys == references.Keys
    && forall field :: field in references ==>
         references[field] in issued && issued[references[field]] == secrets[field]
  }

  ghost predicate Consistent(w: World) {
    && RowsKeyed(w.database.profiles) && JournalKeyed(w.database.journal)
    && Balanced(w.database, w.vault)
    && Recorded(w)
  }

  const Empty := World(Database(map[], map[]), map[], History(map[], map[], {}))

  lemma EmptyIsConsistent()
    ensures Consistent(Empty)
  {
  }

  // Journal contents

  function WithRecords(journal: map<Uuid, CleanupRecord>, records: seq<CleanupRecord>): map<Uuid, CleanupRecord> {
    if records == [] then journal
    else
      var last := records[|records| - 1];
      WithRecords(journal, records[..|records| - 1])[last.recordId := last]
  }

  function WithoutRecords(journal: map<Uuid, CleanupRecord>, records: seq<CleanupRecord>): map<Uuid, CleanupRecord> {
    map id | id in journal && !Names(records, id) :: journal[id]
  }

  predicate Names(records: seq<CleanupRecord>, id: Uuid) {
    exists i :: 0 <= i < |records| && records[i].recordId == id
  }

  predicate Covers(records: seq<CleanupRecord>, reference: Reference) {
    exists i :: 0 <= i < |records| && records[i].reference == reference
  }

  predicate DistinctRecords(records: seq<CleanupRecord>) {
    && (forall i, j :: 0 <= i < j < |records| ==> records[i].recordId != records[j].recordId)
    && (forall i, j :: 0 <= i < j < |records| ==> records[i].reference != records[j].reference)
  }

  /** The records can be inserted: their identities and references are not in the journal yet. */
  predicate Insertable(journal: map<Uuid, CleanupRecord>, records: seq<CleanupRecord>) {
    && DistinctRecords(records)
    && (forall i :: 0 <= i < |records| ==> records[i].recordId !in journal && IsCanonicalUuid(records[i].recordId))
  }

  predicate Stored(journal: map<Uuid, CleanupRecord>, records: seq<CleanupRecord>) {
    forall i :: 0 <= i < |records| ==>
      records[i].recordId in journal && journal[records[i].recordId] == records[i]
  }

  lemma {:induction false} WithRecordsHolds(journal: map<Uuid, CleanupRecord>, records: seq<CleanupRecord>)
    requires DistinctRecords(records)
    ensures Stored(WithRecords(journal, records), records)
    ensures forall id :: id in WithRecords(journal, records) <==> id in journal || Names(records, id)
    ensures forall id :: id in journal && !Names(records, id) ==> WithRecords(journal, records)[id] == journal[id]
  {
    if records != [] {
      var front, last := records[..|records| - 1], records[|records| - 1];
      WithRecordsHolds(journal, front);
      NamesOneMore(records);
      var grown := WithRecords(journal, records);
      forall i | 0 <= i < |records| ensures records[i].recordId in grown && grown[records[i].recordId] == records[i] {
        if i < |front| {
          assert front[i] == records[i] && records[i].recordId != last.recordId;
        }
      }
    }
  }

  lemma NamesOneMore(records: seq<CleanupRecord>)
    requires records != []
    ensures forall id :: Names(records, id) <==>
              Names(records[..|records| - 1], id) || id == records[|records| - 1].recordId
  {
    var front := records[..|records| - 1];
    assert forall i :: 0 <= i < |front| ==> records[i] == front[i];
  }

  // Actions

  datatype Action =
    // Queue fresh references for cleanup before their secrets are stored.
    | Journal(records: seq<CleanupRecord>, values: map<Reference, Secret>)
    // Write one queued reference's secret to the vault.
    | Store(reference: Reference)
    // Insert a profile row, taking its references off the journal.
    | Create(name: string, document: Document, staged: seq<CleanupRecord>, secrets: map<Field, Secret>)
    // Replace a row by its next revision, taking new references off the journal and queueing old ones.
    | Update(name: string, document: Document, staged: seq<CleanupRecord>, retired: seq<CleanupRecord>,
             secrets: map<Field, Secret>)
    // Delete a row, queueing all its references.
    | Remove(name: string, retired: seq<CleanupRecord>)
    // Delete one queued reference's secret from the vault.
    | Erase(reference: Reference)
    // Drop a journal row whose secret is gone.
    | Forget(record: CleanupRecord)

  /** The staged references are queued and already stored. */
  ghost predicate Ready(w: World, staged: seq<CleanupRecord>) {
    Stored(w.database.journal, staged) && forall i :: 0 <= i < |staged| ==> staged[i].reference in w.vault
  }

  /** The values recorded for a generation: what the user supplied for staged fields, what the
      previous generation held for the others. */
  ghost predicate Intended(w: World, references: map<Field, Reference>, previous: map<Field, Secret>,
                           staged: seq<CleanupRecord>, secrets: map<Field, Secret>) {
    && secrets.Keys == references.Keys
    && forall field :: field in references ==>
         if Covers(staged, references[field]) then
           references[field] in w.history.issued && secrets[field] == w.history.issued[references[field]]
         else field in previous && secrets[field] == previous[field]
  }

  ghost predicate Enabled(action: Action, w: World) {
    var database := w.database;
    match action
    case Journal(records, values) =>
      && Insertable(database.journal, records)
      && (forall i :: 0 <= i < |records| ==> records[i].reference !in w.history.issued)
      && (forall i :: 0 <= i < |records| ==> records[i].reference in values)
      && (forall r :: r in values ==> Covers(records, r) && IsCanonical(r) && values[r] != "")
    case Store(reference) =>
      IsJournaled(database.journal, reference) && reference in w.history.issued
    case Create(name, document, staged, secrets) =>
      var references := ProfileReferences(document);
      && name !in database.profiles
      && document.id !in w.history.owners
      && WellOwned(document)
      && Ready(w, staged)
      && (forall r :: r in references.Values <==> Covers(staged, r))
      && Intended(w, references, map[], staged, secrets)
    case Update(name, document, staged, retired, secrets) =>
      && name in database.profiles
      && var row := database.profiles[name];
      && var before, after := ProfileReferences(row.document), ProfileReferences(document);
      && document.id == row.id && WellOwned(document)
      && Ready(w, staged) && Insertable(database.journal, retired)
      && (forall i :: 0 <= i < |retired| ==> retired[i].reference in before.Values)
      && (forall r :: r in after.Values <==> Covers(staged, r) || (r in before.Values && !Covers(retired, r)))
      && (row.id, row.revision) in w.history.generations
      && Intended(w, after, w.history.generations[(row.id, row.revision)].secrets, staged, secrets)
    case Remove(name, retired) =>
      && name in database.profiles
      && var before := ProfileReferences(database.profiles[name].document);
      && Insertable(database.journal, retired)
      && (forall r :: r in before.Values <==> Covers(retired, r))
    case Erase(reference) =>
      IsJournaled(database.journal, reference) && !IsLive(database.profiles, reference)
    case Forget(record) =>
      && record.recordId in database.journal && database.journal[record.recordId] == record
      && record.reference !in w.vault
  }

  ghost function Apply(action: Action, w: World): World
    requires Enabled(action, w)
  {
    var World(Database(profiles, journal), vault, History(issued, generations, owners)) := w;
    match action
    case Journal(records, values) =>
      World(Database(profiles, WithRecords(journal, records)), vault,
            History(issued + values, generations, owners))
    case Store(reference) =>
      World(w.database, vault[reference := issued[reference]], w.history)
    case Create(name, document, staged, secrets) =>
      World(Database(profiles[name := Row(document.id, 1, document)], WithoutRecords(journal, staged)), vault,
            History(issued, generations[(document.id, 1) := Generation(document, secrets)], owners + {document.id}))
    case Update(name, document, staged, retired, secrets) =>
      var row := profiles[name];
      World(Database(profiles[name := Row(row.id, row.revision + 1, document)],
                     WithRecords(WithoutRecords(journal, staged), retired)), vault,
            History(issued, generations[(row.id, row.revision + 1) := Generation(document, secrets)], owners))
    case Remove(name, retired) =>
      World(Database(profiles - {name}, WithRecords(journal, retired)), vault, w.history)
    case Erase(reference) =>
      World(w.database, vault - {reference}, w.history)
    case Forget(record) =>
      World(Database(profiles, WithoutRecords(journal, [record])), vault, w.history)
  }

  ghost predicate StepBy(action: Action, before: World, after: World) {
    Enabled(action, before) && after == Apply(action, before)
  }

  ghost predicate Step(before: World, after: World) {
    exists action :: StepBy(action, before, after)
  }

  // Each action keeps the stores consistent

  lemma JournalGrows(journal: map<Uuid, CleanupRecord>, records: seq<CleanupRecord>)
    requires JournalKeyed(journal) && Insertable(journal, records)
    requires forall i :: 0 <= i < |records| ==> !IsJournaled(journal, records[i].reference)
    ensures JournalKeyed(WithRecords(journal, records))
    ensures forall r :: IsJournaled(WithRecords(journal, records), r) <==> IsJournaled(journal, r) || Covers(records, r)
    ensures forall id :: id in WithRecords(journal, records) ==>
              Names(records, id) || (id in journal && WithRecords(journal, records)[id] == journal[id])
  {
    hide WithRecords, Covers, IsJournaled;
    WithRecordsHolds(journal, records);
    GrownApart(journal, records);
    GrownHolds(journal, records);
  }

  lemma GrownApart(journal: map<Uuid, CleanupRecord>, records: seq<CleanupRecord>)
    requires JournalKeyed(journal) && Insertable(journal, records)
    requires forall i :: 0 <= i < |records| ==> !IsJournaled(journal, records[i].reference)
    ensures JournalKeyed(WithRecords(journal, records))
  {
    hide WithRecords;
    WithRecordsHolds(journal, records);
    var grown := WithRecords(journal, records);
    forall i, j | i in grown && j in grown && i != j ensures grown[i].reference != grown[j].reference {
      if Names(records, i) {
        var k :| 0 <= k < |records| && records[k].recordId == i;
        assert grown[i] == records[k];
      } else {
        assert grown[i] == journal[i];
      }
      if Names(records, j) {
        var k :| 0 <= k < |records| && records[k].recordId == j;
        assert grown[j] == records[k];
      } else {
        assert grown[j] == journal[j];
      }
    }
  }

  lemma GrownHolds(journal: map<Uuid, CleanupRecord>, records: seq<CleanupRecord>)
    requires Insertable(journal, records)
    ensures forall r :: IsJournaled(WithRecords(journal, records), r) <==> IsJournaled(journal, r) || Covers(records, r)
  {
    hide WithRecords;
    WithRecordsHolds(journal, records);
    var grown := WithRecords(journal, records);
    forall r ensures IsJournaled(grown, r) <==> IsJournaled(journal, r) || Covers(records, r) {
      if IsJournaled(journal, r) {
        var id :| id in journal && journal[id].reference == r;
        assert grown[id] == journal[id];
      }
      if Covers(records, r) {
        var i :| 0 <= i < |records| && records[i].reference == r;
        assert grown[records[i].recordId].reference == r;
      }
      if IsJournaled(grown, r) {
        var id :| id in grown && grown[id].reference == r;
        if !Names(records, id) {
          assert grown[id] == journal[id];
        }
      }
    }
  }

  lemma JournalShrinks(journal: map<Uuid, CleanupRecord>, records: seq<CleanupRecord>)
    requires JournalKeyed(journal) && Stored(journal, records)
    ensures JournalKeyed(WithoutRecords(journal, records))
    ensures forall r :: IsJournaled(WithoutRecords(journal, records), r) <==>
              IsJournaled(journal, r) && !Covers(records, r)
  {
    var shrunk := WithoutRecords(journal, records);
    forall r ensures IsJournaled(shrunk, r) <==> IsJournaled(journal, r) && !Covers(records, r) {
      if IsJournaled(journal, r) && !Covers(records, r) {
        var id :| id in journal && journal[id].reference == r;
        assert shrunk[id].reference == r;
      }
    }
  }

  /** A row change alters which references are live by exactly that row's. */
  lemma LiveAfter(profiles: map<string, Row>, name: string, row: Row)
    requires RowsKeyed(profiles)
    ensures forall r :: IsLive(profiles[name := row], r) <==>
              IsLive(profiles - {name}, r) || r in ProfileReferences(row.document).Values
    ensures name in profiles ==> forall r ::
              IsLive(profiles - {name}, r) <==>
              IsLive(profiles, r) && r !in ProfileReferences(profiles[name].document).Values
    ensures name in profiles ==> forall r ::
              r in ProfileReferences(profiles[name].document).Values ==> IsLive(profiles, r)
    ensures name !in profiles ==> profiles - {name} == profiles
  {
    hide ProfileReferences;
    var changed, rest := profiles[name := row], profiles - {name};
    forall r ensures IsLive(changed, r) <==> IsLive(rest, r) || r in ProfileReferences(row.document).Values {
      if IsLive(rest, r) {
        var other :| other in rest && r in ProfileReferences(rest[other].document).Values;
        assert changed[other] == rest[other];
      }
      if r in ProfileReferences(row.document).Values {
        assert changed[name] == row;
      }
      if IsLive(changed, r) {
        var other :| other in changed && r in ProfileReferences(changed[other].document).Values;
        assert other == name || rest[other] == changed[other];
      }
    }
    if name in profiles {
      forall r ensures IsLive(rest, r) <==> IsLive(profiles, r) && r !in ProfileReferences(profiles[name].document).Values {
        if IsLive(rest, r) {
          var other :| other in rest && r in ProfileReferences(rest[other].document).Values;
          assert profiles[other] == rest[other];
          OwnerOf(profiles[other].document, r);
          if r in ProfileReferences(profiles[name].document).Values {
            OwnerOf(profiles[name].document, r);
            assert false;
          }
        }
        if IsLive(profiles, r) && r !in ProfileReferences(profiles[name].document).Values {
          var other :| other in profiles && r in ProfileReferences(profiles[other].document).Values;
          assert rest[other] == profiles[other];
        }
      }
    }
  }

  lemma OwnerOf(document: Document, reference: Reference)
    requires WellOwned(document) && reference in ProfileReferences(document).Values
    ensures reference.profileId == document.id
    ensures reference.field in ProfileReferences(document) && ProfileReferences(document)[reference.field] == reference
    ensures IsCanonical(reference)
  {
    var field :| field in ProfileReferences(document) && ProfileReferences(document)[field] == reference;
  }

  lemma JournalKeeps(w: World, action: Action)
    requires Consistent(w) && action.Journal? && Enabled(action, w)
    ensures Consistent(Apply(action, w))
  {
    hide ProfileReferences, WellOwned, IsCanonical, WithRecords, IsLive;
    var Journal(records, values) := action;
    forall i | 0 <= i < |records| ensures !IsJournaled(w.database.journal, records[i].reference) {
    }
    JournalGrows(w.database.journal, records);
    assert forall r :: Covers(records, r) ==> r !in w.history.issued;
    RecordedAfterJournal(w, action);
  }

  lemma RecordedAfterJournal(w: World, action: Action)
    requires Consistent(w) && action.Journal? && Enabled(action, w)
    ensures Recorded(Apply(action, w))
  {
    hide ProfileReferences, WellOwned, IsCanonical, IsLive, WithRecords, RowRecorded, Balanced, JournalKeyed, RowsKeyed;
    var Journal(records, values) := action;
    var after := Apply(action, w);
    WithRecordsHolds(w.database.journal, records);
    ValuesAreNew(w, action);
    forall name | name in w.database.profiles ensures RowRecorded(after.history, w.database.profiles[name]) {
      RowRecordedLater(w.history, after.history, values, w.database.profiles[name]);
    }
    forall id | id in after.database.journal ensures after.database.journal[id].reference in after.history.issued {
      if !Names(records, id) {
        assert w.database.journal[id].reference in w.history.issued;
      }
    }
  }

  lemma RowRecordedLater(history: History, later: History, values: map<Reference, Secret>, row: Row)
    requires RowRecorded(history, row) && forall r :: r in values ==> r !in history.issued
    requires later == history.(issued := history.issued + values)
    ensures RowRecorded(later, row)
  {
    hide ProfileReferences;
  }

  lemma StoreKeeps(w: World, action: Action)
    requires Consistent(w) && action.Store? && Enabled(action, w)
    ensures Consistent(Apply(action, w))
  {
    hide ProfileReferences, WellOwned, IsCanonical, IsLive;
  }

  lemma EraseKeeps(w: World, action: Action)
    requires Consistent(w) && action.Erase? && Enabled(action, w)
    ensures Consistent(Apply(action, w))
  {
    hide ProfileReferences, WellOwned, IsCanonical, IsLive;
  }

  lemma ForgetKeeps(w: World, action: Action)
    requires Consistent(w) && action.Forget? && Enabled(action, w)
    ensures Consistent(Apply(action, w))
  {
    hide ProfileReferences, WellOwned, IsCanonical, IsLive, IsJournaled, Recorded, JournalKeyed;
    JournalShrinks(w.database.journal, [action.record]);
    ForgetRecords(w, action);
    assert forall r :: Covers([action.record], r) <==> r == action.record.reference by {
      assert [action.record][0] == action.record;
    }
  }

  lemma ForgetRecords(w: World, action: Action)
    requires Recorded(w) && action.Forget? && Enabled(action, w)
    ensures Recorded(Apply(action, w))
  {
    hide RowRecorded, IsCanonical;
  }

  lemma CreateKeeps(w: World, action: Action)
    requires Consistent(w) && action.Create? && Enabled(action, w)
    ensures Consistent(Apply(action, w))
  {
    hide ProfileReferences, WellOwned, IsCanonical, IsLive, IsJournaled, Recorded, Supplies, Intended;
    var Create(name, document, staged, secrets) := action;
    JournalShrinks(w.database.journal, staged);
    LiveAfter(w.database.profiles, name, Row(document.id, 1, document));
    StagedAreQueued(w, staged);
    assert forall other :: other in w.database.profiles ==> w.database.profiles[other].id != document.id by {
      RowIds(w);
    }
    CreateRecords(w, action);
  }

  lemma RowIds(w: World)
    requires Recorded(w)
    ensures forall name :: name in w.database.profiles ==> w.database.profiles[name].id in w.history.owners
  {
    hide ProfileReferences;
    forall name | name in w.database.profiles ensures w.database.profiles[name].id in w.history.owners {
      assert RowRecorded(w.history, w.database.profiles[name]);
    }
  }

  lemma CreateRecords(w: World, action: Action)
    requires Consistent(w) && action.Create? && Enabled(action, w)
    ensures Recorded(Apply(action, w))
  {
    hide ProfileReferences, WellOwned, IsCanonical, IsLive, IsJournaled, RowsKeyed, JournalKeyed, Balanced;
    var Create(name, document, staged, secrets) := action;
    var after := Apply(action, w);
    forall other | other in after.database.profiles
      ensures RowRecorded(after.history, after.database.profiles[other])
    {
      if other != name {
        assert RowRecorded(w.history, w.database.profiles[other]);
      }
    }
  }

  lemma StagedAreQueued(w: World, staged: seq<CleanupRecord>)
    requires Stored(w.database.journal, staged)
    ensures forall r :: Covers(staged, r) ==> IsJournaled(w.database.journal, r)
  {
    forall r | Covers(staged, r) ensures IsJournaled(w.database.journal, r) {
      var i :| 0 <= i < |staged| && staged[i].reference == r;
      assert w.database.journal[staged[i].recordId].reference == r;
    }
  }

  lemma RemoveKeeps(w: World, action: Action)
    requires Consistent(w) && action.Remove? && Enabled(action, w)
    ensures Consistent(Apply(action, w))
  {
    hide ProfileReferences, WellOwned, IsCanonical, IsJournaled, IsLive, Recorded, WithRecords, JournalKeyed;
    var Remove(name, retired) := action;
    LiveAfter(w.database.profiles, name, w.database.profiles[name]);
    RetiredAreLive(w, name, retired);
    JournalGrows(w.database.journal, retired);
    RemoveRecords(w, action);
  }

  lemma RemoveRecords(w: World, action: Action)
    requires Consistent(w) && action.Remove? && Enabled(action, w)
    ensures Recorded(Apply(action, w))
  {
    hide ProfileReferences, WellOwned, IsCanonical, IsLive, IsJournaled;
    var Remove(name, retired) := action;
    WithRecordsHolds(w.database.journal, retired);
    RetiredAreLive(w, name, retired);
    forall id | id in WithRecords(w.database.journal, retired)
      ensures WithRecords(w.database.journal, retired)[id].reference in w.history.issued
    {
      if Names(retired, id) {
        var i :| 0 <= i < |retired| && retired[i].recordId == id;
        assert Covers(retired, retired[i].reference);
      }
    }
  }

  lemma RetiredAreLive(w: World, name: string, retired: seq<CleanupRecord>)
    requires Consistent(w) && name in w.database.profiles
    requires forall i :: 0 <= i < |retired| ==>
               retired[i].reference in ProfileReferences(w.database.profiles[name].document).Values
    ensures forall r :: Covers(retired, r) ==> IsLive(w.database.profiles, r) && r in w.vault && r in w.history.issued
    ensures forall i :: 0 <= i < |retired| ==> !IsJournaled(w.database.journal, retired[i].reference)
  {
    hide ProfileReferences, WellOwned, IsCanonical;
  }

  lemma UpdateKeeps(w: World, action: Action)
    requires Consistent(w) && action.Update? && Enabled(action, w)
    ensures Consistent(Apply(action, w))
  {
    hide ProfileReferences, WellOwned, IsCanonical, IsJournaled, IsLive, Recorded, Supplies, Intended;
    UpdateBalances(w, action);
    UpdateRecords(w, action);
  }

  lemma UpdateBalances(w: World, action: Action)
    requires Consistent(w) && action.Update? && Enabled(action, w)
    ensures Balanced(Apply(action, w).database, w.vault)
    ensures JournalKeyed(Apply(action, w).database.journal)
  {
    hide ProfileReferences, WellOwned, IsCanonical, IsJournaled, IsLive, Recorded, Supplies, Intended,
      WithRecords, WithoutRecords;
    var Update(name, document, staged, retired, secrets) := action;
    var row := w.database.profiles[name];
    LiveAfter(w.database.profiles, name, Row(row.id, row.revision + 1, document));
    RetiredAreLive(w, name, retired);
    StagedAreQueued(w, staged);
    JournalShrinks(w.database.journal, staged);
    Shrunk(w.database.journal, staged, retired);
    JournalGrows(WithoutRecords(w.database.journal, staged), retired);
    forall r | Covers(staged, r) ensures r in w.vault {
      var i :| 0 <= i < |staged| && staged[i].reference == r;
    }
  }

  lemma Shrunk(journal: map<Uuid, CleanupRecord>, staged: seq<CleanupRecord>, retired: seq<CleanupRecord>)
    ensures Insertable(journal, retired) ==> Insertable(WithoutRecords(journal, staged), retired)
  {
  }

  lemma UpdateRecords(w: World, action: Action)
    requires Consistent(w) && action.Update? && Enabled(action, w)
    ensures Recorded(Apply(action, w))
  {
    hide ProfileReferences, WellOwned, IsCanonical, IsLive, IsJournaled, Balanced, JournalKeyed, Supplies, Intended, Ready,
      Covers, WithRecords, WithoutRecords, Insertable;
    var Update(name, document, staged, retired, secrets) := action;
    var row := w.database.profiles[name];
    var after := Apply(action, w);
    assert RowRecorded(w.history, row);
    RetainedValues(w, action);
    forall other | other in after.database.profiles
      ensures RowRecorded(after.history, after.database.profiles[other])
    {
      if other != name {
        assert RowRecorded(w.history, w.database.profiles[other]);
      }
    }
    UpdateQueuesIssued(w, action);
  }

  /** The new generation's intended values are what its references stand for. */
  lemma RetainedValues(w: World, action: Action)
    requires Consistent(w) && action.Update? && Enabled(action, w)
    ensures Supplies(w.history.issued, ProfileReferences(action.document), action.secrets)
  {
    hide ProfileReferences, IsCanonical, IsLive, IsJournaled, Balanced, JournalKeyed;
    var Update(name, document, staged, retired, secrets) := action;
    var row := w.database.profiles[name];
    var before, after := ProfileReferences(row.document), ProfileReferences(document);
    assert RowRecorded(w.history, row);
    forall field | field in after
      ensures after[field] in w.history.issued && w.history.issued[after[field]] == secrets[field]
    {
      if !Covers(staged, after[field]) {
        assert after[field] in before.Values;
        OwnerOf(document, after[field]);
        OwnerOf(row.document, after[field]);
      }
    }
  }

  lemma UpdateQueuesIssued(w: World, action: Action)
    requires Consistent(w) && action.Update? && Enabled(action, w)
    ensures var journal := Apply(action, w).database.journal;
            forall id :: id in journal ==> journal[id].reference in w.history.issued
  {
    hide ProfileReferences, WellOwned, IsCanonical, IsLive, IsJournaled;
    var Update(name, document, staged, retired, secrets) := action;
    var shrunk := WithoutRecords(w.database.journal, staged);
    Shrunk(w.database.journal, staged, retired);
    WithRecordsHolds(shrunk, retired);
    RetiredAreLive(w, name, retired);
    forall id | id in WithRecords(shrunk, retired)
      ensures WithRecords(shrunk, retired)[id].reference in w.history.issued
    {
      if Names(retired, id) {
        var i :| 0 <= i < |retired| && retired[i].recordId == id;
        assert Covers(retired, retired[i].reference);
      }
    }
  }

  /** Whatever the program does next, the two stores stay consistent. */
  lemma StepKeepsConsistent(before: World, after: World)
    requires Consistent(before) && Step(before, after)
    ensures Consistent(after)
  {
    var action :| StepBy(action, before, after);
    match action
    case Journal(_, _) => JournalKeeps(before, action);
    case Store(_) => StoreKeeps(before, action);
    case Create(_, _, _, _) => CreateKeeps(before, action);
    case Update(_, _, _, _, _) => UpdateKeeps(before, action);
    case Remove(_, _) => RemoveKeeps(before, action);
    case Erase(_) => EraseKeeps(before, action);
    case Forget(_) => ForgetKeeps(before, action);
  }

  // Runs

  ghost predicate IsRun(worlds: seq<World>) {
    && worlds != []
    && forall i :: 0 <= i < |worlds| - 1 ==> Step(worlds[i], worlds[i + 1])
  }

  /** The history is only ever added to. */
  predicate Extends(earlier: History, later: History) {
    && (forall r :: r in earlier.issued ==> r in later.issued && later.issued[r] == earlier.issued[r])
    && (forall key :: key in earlier.generations ==>
          key in later.generations && later.generations[key] == earlier.generations[key])
    && earlier.owners <= later.owners
  }

  lemma StepExtends(before: World, after: World)
    requires Consistent(before) && Step(before, after)
    ensures Extends(before.history, after.history)
  {
    hide ProfileReferences, WellOwned, IsCanonical, IsLive, IsJournaled, RowsKeyed, Balanced, JournalKeyed,
      Intended, Ready, Insertable, WithRecords, WithoutRecords, Covers, RowRecorded, Supplies;
    var action :| StepBy(action, before, after);
    if action.Update? {
      NextRevisionIsNew(before, action.name);
    } else if action.Journal? {
      ValuesAreNew(before, action);
    }
  }

  lemma NextRevisionIsNew(w: World, name: string)
    requires Consistent(w) && name in w.database.profiles
    ensures var row := w.database.profiles[name]; (row.id, row.revision + 1) !in w.history.generations
  {
    hide ProfileReferences;
    assert RowRecorded(w.history, w.database.profiles[name]);
  }

  lemma ValuesAreNew(w: World, action: Action)
    requires action.Journal? && Enabled(action, w)
    ensures forall r :: r in action.values ==> r !in w.history.issued
  {
  }

  /** In any run of adds, edits, removals and repairs, cut off after any durable action, the stores
      are consistent at every point and the history only grows. */
  lemma {:induction false} RunKeepsConsistent(worlds: seq<World>, i: nat, j: nat)
    requires IsRun(worlds) && Consistent(worlds[0]) && i <= j < |worlds|
    ensures Consistent(worlds[i]) && Consistent(worlds[j])
    ensures Extends(worlds[i].history, worlds[j].history)
    decreases j
  {
    hide Consistent, Step;
    if i < j {
      RunKeepsConsistent(worlds, i, j - 1);
      StepKeepsConsistent(worlds[j - 1], worlds[j]);
      StepExtends(worlds[j - 1], worlds[j]);
    } else if 0 < j {
      RunKeepsConsistent(worlds, j - 1, j - 1);
      StepKeepsConsistent(worlds[j - 1], worlds[j]);
    }
  }

  /** A run that is consistent at one point is consistent at every later one: wherever the process
      dies, it leaves consistent stores behind. */
  lemma ConsistentFromThere(worlds: seq<World>, start: nat, crash: nat)
    requires IsRun(worlds) && start <= crash < |worlds| && Consistent(worlds[start])
    ensures Consistent(worlds[crash])
  {
    hide Consistent, Step;
    var rest := worlds[start..];
    assert forall i :: 0 <= i < |rest| ==> rest[i] == worlds[start + i];
    RunKeepsConsistent(rest, 0, crash - start);
  }

  /** An identity and a revision name at most one document over a whole run, under whatever names
      and however long ago the two rows were stored. */
  lemma OneDocumentPerRevision(worlds: seq<World>, i: nat, first: string, j: nat, second: string)
    requires IsRun(worlds) && Consistent(worlds[0]) && i <= j < |worlds|
    requires first in worlds[i].database.profiles && second in worlds[j].database.profiles
    requires worlds[i].database.profiles[first].id == worlds[j].database.profiles[second].id
    requires worlds[i].database.profiles[first].revision == worlds[j].database.profiles[second].revision
    ensures worlds[i].database.profiles[first] == worlds[j].database.profiles[second]
  {
    RunKeepsConsistent(worlds, i, j);
    assert RowRecorded(worlds[i].history, worlds[i].database.profiles[first]);
    assert RowRecorded(worlds[j].history, worlds[j].database.profiles[second]);
  }
}
