/** The columns a seeding run's times are stored in, and which of them move how. */
module TimelineColumns {
  datatype Clock = Db | Node

  datatype Table =
    | Tenants | AuthProviders | AuthProviderUserTypes | UserAuthBindings | Permissions | OrgTypes
    | OrgTypeRules | OrgNodes | UserTypes | UserTypeAllowedOrgTypes | Users | Roles | RolePermissions
    | RoleAllowedUserTypes | RoleAllowedOrgTypes | RoleGrants | AuditEvents | AssessmentBatches
    | BatchManagementAnchors | BatchAccessSources | BatchAccessSourcePermissions | BatchLifecycleEvents
    | BatchParticipants | BatchParticipantEvents | RosterImports | BatchPhases | PhaseEvents
    | PhaseItemScopes | PhaseParticipantScopes | ScoreGroups | AssessmentItems | AssessmentItemRevisions
    | Entries | EntryRevisions | EntryRecognitions | EntryEvents | ReviewInstances | ReviewEvents
    | AssessmentFormulaFunctions | AssessmentFormulaDraftRevisions | AssessmentFormulaVersions
    | AssessmentFormulaShareScopes | StorageUploadReservations | StorageAttachments | ReviewPanels
    | ReviewPanelAssignments | ReviewVotes | ReviewSupplementRequests | ReviewSupplementResponses
    | AdministrativeEntryImports | AdministrativeEntryImportRows | AdministrativeRecordOperations
    | AdministrativeRecordOperationRows | BatchConfigRevisions | OtherTable(string)

  datatype Name =
    | CreatedAt | UpdatedAt | BoundAt | RevokedAt | OccurredAt | AcceptedAt | IncludedAt | ExcludedAt
    | ActualEntryAt | ActualAt | ProcessedAt | VoidedAt | CompletedAt | SavedAt | PublishedAt
    | MetadataUpdatedAt | SharedAt | ClosedAt | RecognitionLockedAt | AssignedAt | AnsweredAt
    | CancelledAt | PlannedEntryAt | PlannedAt | GrantExpiresAt | CleanupAfter | OtherName(string)

  datatype Column = Column(table: Table, name: Name)

  /** A column written relative to its own step's now, and the column whose move it shares. */
  datatype Companion = Companion(column: Column, follows: Column)

  datatype Plan = Plan(moved: seq<Column>, companions: seq<Companion>, trailing: seq<Column>,
                       leading: seq<Column>, node: set<Column>)

  function ClockOf(plan: Plan, c: Column): Clock { if c in plan.node then Node else Db }

  ghost predicate IsCompanion(plan: Plan, c: Column) {
    exists p :: p in plan.companions && p.column == c
  }

  ghost function FollowedBy(plan: Plan, c: Column): (f: Column)
    requires IsCompanion(plan, c)
    ensures Companion(c, f) in plan.companions
  {
    var p :| p in plan.companions && p.column == c;
    p.follows
  }

  ghost predicate Distinct(cs: seq<Column>) {
    forall i, j :: 0 <= i < j < |cs| ==> cs[i] != cs[j]
  }

  /** The lists do not contradict one another: a column is moved by one of them, except that the
      trailing and leading ones get a second look, and a companion follows a moved column. */
  ghost predicate Sound(plan: Plan) {
    && Distinct(plan.moved) && Distinct(plan.trailing) && Distinct(plan.leading)
    && (forall i, j :: 0 <= i < j < |plan.companions| ==> plan.companions[i].column != plan.companions[j].column)
    && (forall p :: p in plan.companions ==> p.column !in plan.moved && p.follows in plan.moved)
    && (forall c :: c in plan.trailing ==> c in plan.moved && c !in plan.leading && c !in plan.node)
    && (forall c :: c in plan.leading ==> c in plan.moved && c !in plan.node)
  }

  ghost function CompanionColumns(plan: Plan): (r: seq<Column>)
    ensures |r| == |plan.companions| && forall i :: 0 <= i < |r| ==> r[i] == plan.companions[i].column
  {
    seq(|plan.companions|, i requires 0 <= i < |plan.companions| => plan.companions[i].column)
  }

  lemma FollowedIs(plan: Plan, i: nat)
    requires Sound(plan) && i < |plan.companions|
    ensures var p := plan.companions[i];
            && IsCompanion(plan, p.column) && FollowedBy(plan, p.column) == p.follows
            && Distinct(CompanionColumns(plan)) && p.follows !in CompanionColumns(plan) && p.follows != p.column
  {
    var p := plan.companions[i];
    assert p in plan.companions;
    var q := Companion(p.column, FollowedBy(plan, p.column));
    var j :| 0 <= j < |plan.companions| && plan.companions[j] == q;
    assert forall m :: 0 <= m < |plan.companions| ==> plan.companions[m] in plan.companions;
  }

  // ----- the lists as they stand -----

  /** The tables in the order they are listed. */
  function Nth(i: int): Table {
    match i
    case 0 => Tenants
    case 1 => AuthProviders
    case 2 => AuthProviderUserTypes
    case 3 => UserAuthBindings
    case 4 => Permissions
    case 5 => OrgTypes
    case 6 => OrgTypeRules
    case 7 => OrgNodes
    case 8 => UserTypes
    case 9 => UserTypeAllowedOrgTypes
    case 10 => Users
    case 11 => Roles
    case 12 => RolePermissions
    case 13 => RoleAllowedUserTypes
    case 14 => RoleAllowedOrgTypes
    case 15 => RoleGrants
    case 16 => AuditEvents
    case 17 => AssessmentBatches
    case 18 => BatchManagementAnchors
    case 19 => BatchAccessSources
    case 20 => BatchAccessSourcePermissions
    case 21 => BatchLifecycleEvents
    case 22 => BatchParticipants
    case 23 => BatchParticipantEvents
    case 24 => RosterImports
    case 25 => BatchPhases
    case 26 => PhaseEvents
    case 27 => PhaseItemScopes
    case 28 => PhaseParticipantScopes
    case 29 => ScoreGroups
    case 30 => AssessmentItems
    case 31 => AssessmentItemRevisions
    case 32 => Entries
    case 33 => EntryRevisions
    case 34 => EntryRecognitions
    case 35 => EntryEvents
    case 36 => ReviewInstances
    case 37 => ReviewEvents
    case 38 => AssessmentFormulaFunctions
    case 39 => AssessmentFormulaDraftRevisions
    case 40 => AssessmentFormulaVersions
    case 41 => AssessmentFormulaShareScopes
    case 42 => StorageUploadReservations
    case 43 => StorageAttachments
    case 44 => ReviewPanels
    case 45 => ReviewPanelAssignments
    case 46 => ReviewVotes
    case 47 => ReviewSupplementRequests
    case 48 => ReviewSupplementResponses
    case 49 => AdministrativeEntryImports
    case 50 => AdministrativeEntryImportRows
    case 51 => AdministrativeRecordOperations
    case 52 => AdministrativeRecordOperationRows
    case 53 => BatchConfigRevisions
    case _ => OtherTable("")
  }

  const TABLES: seq<Table> := seq(54, i => Nth(i))

  /** The columns of a table whose value is the moment a step happened. */
  function MovedColumns(t: Table): seq<Name> {
    match t
    case Tenants => [CreatedAt, UpdatedAt]
    case AuthProviders => [CreatedAt, UpdatedAt]
    case AuthProviderUserTypes => [CreatedAt]
    case UserAuthBindings => [BoundAt]
    case Permissions => [CreatedAt, UpdatedAt]
    case OrgTypes => [CreatedAt, UpdatedAt]
    case OrgTypeRules => [CreatedAt]
    case OrgNodes => [CreatedAt, UpdatedAt]
    case UserTypes => [CreatedAt, UpdatedAt]
    case UserTypeAllowedOrgTypes => [CreatedAt]
    case Users => [CreatedAt, UpdatedAt]
    case Roles => [CreatedAt, UpdatedAt]
    case RolePermissions => [CreatedAt]
    case RoleAllowedUserTypes => [CreatedAt]
    case RoleAllowedOrgTypes => [CreatedAt]
    case RoleGrants => [CreatedAt, RevokedAt]
    case AuditEvents => [OccurredAt]
    case AssessmentBatches => [CreatedAt, UpdatedAt]
    case BatchManagementAnchors => [CreatedAt]
    case BatchAccessSources => [AcceptedAt]
    case BatchAccessSourcePermissions => [CreatedAt]
    case BatchLifecycleEvents => [CreatedAt, OccurredAt]
    case BatchParticipants => [CreatedAt, IncludedAt, UpdatedAt, ExcludedAt]
    case BatchParticipantEvents => [OccurredAt]
    case RosterImports => [OccurredAt]
    case BatchPhases => [CreatedAt, UpdatedAt, ActualEntryAt]
    case PhaseEvents => [CreatedAt, ActualAt, ProcessedAt]
    case PhaseItemScopes => [CreatedAt]
    case PhaseParticipantScopes => [CreatedAt]
    case ScoreGroups => [CreatedAt, UpdatedAt]
    case AssessmentItems => [CreatedAt, UpdatedAt, VoidedAt]
    case AssessmentItemRevisions => [CreatedAt]
    case Entries => [CreatedAt, UpdatedAt]
    case EntryRevisions => [CreatedAt]
    case EntryRecognitions => [CreatedAt]
    case EntryEvents => [CreatedAt]
    case ReviewInstances => [CreatedAt, CompletedAt]
    case ReviewEvents => [CreatedAt]
    case AssessmentFormulaFunctions => [CreatedAt, UpdatedAt]
    case AssessmentFormulaDraftRevisions => [SavedAt]
    case AssessmentFormulaVersions => [PublishedAt, MetadataUpdatedAt]
    case AssessmentFormulaShareScopes => [SharedAt]
    case StorageUploadReservations => [CreatedAt, CompletedAt]
    case StorageAttachments => [CreatedAt, BoundAt]
    case ReviewPanels => [CreatedAt, ClosedAt, RecognitionLockedAt]
    case ReviewPanelAssignments => [AssignedAt]
    case ReviewVotes => [CreatedAt]
    case ReviewSupplementRequests => [CreatedAt, AnsweredAt, CancelledAt]
    case ReviewSupplementResponses => [CreatedAt]
    case AdministrativeEntryImports => [CreatedAt]
    case AdministrativeEntryImportRows => [CreatedAt]
    case AdministrativeRecordOperations => [CreatedAt]
    case AdministrativeRecordOperationRows => [CreatedAt]
    case BatchConfigRevisions => [CreatedAt]
    case OtherTable(_) => []
  }

  function ColumnsOf(t: Table, names: seq<Name>): (r: seq<Column>)
    ensures |r| == |names| && forall i :: 0 <= i < |r| ==> r[i] == Column(t, names[i])
  {
    seq(|names|, i requires 0 <= i < |names| => Column(t, names[i]))
  }

  function MovedOf(tables: seq<Table>): seq<Column> {
    if tables == [] then [] else ColumnsOf(tables[0], MovedColumns(tables[0])) + MovedOf(tables[1..])
  }

  function PlanWith(moved: seq<Column>): Plan {
    Plan(moved,
    [ Companion(Column(BatchPhases, PlannedEntryAt), Column(BatchPhases, UpdatedAt)),
      Companion(Column(PhaseEvents, PlannedAt), Column(PhaseEvents, CreatedAt)),
      Companion(Column(StorageUploadReservations, GrantExpiresAt), Column(StorageUploadReservations, CreatedAt)),
      Companion(Column(StorageUploadReservations, CleanupAfter), Column(StorageUploadReservations, CreatedAt)) ],
    [Column(AuditEvents, OccurredAt)],
    [Column(RoleGrants, RevokedAt)],
    { Column(BatchLifecycleEvents, OccurredAt), Column(BatchParticipants, ExcludedAt),
      Column(BatchPhases, ActualEntryAt), Column(PhaseEvents, ActualAt), Column(PhaseEvents, ProcessedAt),
      Column(StorageUploadReservations, CreatedAt), Column(StorageUploadReservations, CompletedAt),
      Column(StorageAttachments, CreatedAt), Column(StorageAttachments, BoundAt) })
  }

  const LISTS: Plan := PlanWith(MovedOf(TABLES))

  lemma {:induction false} MovedOfHas(tables: seq<Table>, c: Column)
    ensures c in MovedOf(tables) <==> c.table in tables && c.name in MovedColumns(c.table)
  {
    if tables != [] {
      MovedOfHas(tables[1..], c);
      var first := ColumnsOf(tables[0], MovedColumns(tables[0]));
      assert c in first <==> c.table == tables[0] && c.name in MovedColumns(c.table) by {
        if c.table == tables[0] && c.name in MovedColumns(c.table) {
          var i :| 0 <= i < |first| && MovedColumns(tables[0])[i] == c.name;
          assert first[i] == c;
        }
      }
      assert c.table in tables <==> c.table == tables[0] || c.table in tables[1..];
    }
  }

  lemma {:induction false} MovedOfDistinct(tables: seq<Table>)
    requires forall i, j :: 0 <= i < j < |tables| ==> tables[i] != tables[j]
    ensures Distinct(MovedOf(tables))
  {
    if tables != [] {
      var first, rest := ColumnsOf(tables[0], MovedColumns(tables[0])), MovedOf(tables[1..]);
      MovedOfDistinct(tables[1..]);
      NamesDistinct(tables[0]);
      forall i, j | 0 <= i < |first| && 0 <= j < |rest| ensures first[i] != rest[j] {
        MovedOfHas(tables[1..], rest[j]);
        assert rest[j] in rest;
      }
    }
  }

  lemma NamesDistinct(t: Table)
    ensures forall i, j :: 0 <= i < j < |MovedColumns(t)| ==> MovedColumns(t)[i] != MovedColumns(t)[j]
  {
  }

  /** Taken six tables at a time. */
  lemma NthDistinct(i: int, j: int)
    requires 0 <= i < j < 54
    ensures Nth(i) != Nth(j)
  {
    if i < 6 {} else if i < 12 {} else if i < 18 {} else if i < 24 {} else if i < 30 {} else if i < 36 {}
    else if i < 42 {} else if i < 48 {} else {}
  }

  lemma TablesDistinct()
    ensures forall i, j :: 0 <= i < j < |TABLES| ==> TABLES[i] != TABLES[j]
  {
    forall i, j | 0 <= i < j < |TABLES| ensures TABLES[i] != TABLES[j] { NthDistinct(i, j); }
  }

  lemma Listed(tables: seq<Table>, t: Table, i: nat, n: Name)
    requires t in tables && i < |MovedColumns(t)| && MovedColumns(t)[i] == n
    ensures Column(t, n) in MovedOf(tables)
  {
    MovedOfHas(tables, Column(t, n));
  }

  lemma NotListed(tables: seq<Table>, t: Table, n: Name)
    requires forall i :: 0 <= i < |MovedColumns(t)| ==> MovedColumns(t)[i] != n
    ensures Column(t, n) !in MovedOf(tables)
  {
    MovedOfHas(tables, Column(t, n));
  }

  lemma PhasesFollow(tables: seq<Table>)
    requires BatchPhases in tables
    ensures Column(BatchPhases, UpdatedAt) in MovedOf(tables)
  {
    Listed(tables, BatchPhases, 1, UpdatedAt);
  }

  lemma EventsFollow(tables: seq<Table>)
    requires PhaseEvents in tables
    ensures Column(PhaseEvents, CreatedAt) in MovedOf(tables)
  {
    Listed(tables, PhaseEvents, 0, CreatedAt);
  }

  lemma ReservationsFollow(tables: seq<Table>)
    requires StorageUploadReservations in tables
    ensures Column(StorageUploadReservations, CreatedAt) in MovedOf(tables)
  {
    Listed(tables, StorageUploadReservations, 0, CreatedAt);
  }

  lemma AuditTrails(tables: seq<Table>)
    requires AuditEvents in tables
    ensures Column(AuditEvents, OccurredAt) in MovedOf(tables)
  {
    Listed(tables, AuditEvents, 0, OccurredAt);
  }

  lemma GrantsLead(tables: seq<Table>)
    requires RoleGrants in tables
    ensures Column(RoleGrants, RevokedAt) in MovedOf(tables)
  {
    Listed(tables, RoleGrants, 1, RevokedAt);
  }

  lemma CompanionsAreNotListed(tables: seq<Table>, moved: seq<Column>)
    requires moved == MovedOf(tables)
    ensures Column(BatchPhases, PlannedEntryAt) !in moved && Column(PhaseEvents, PlannedAt) !in moved
    ensures Column(StorageUploadReservations, GrantExpiresAt) !in moved
    ensures Column(StorageUploadReservations, CleanupAfter) !in moved
  {
    NotListed(tables, BatchPhases, PlannedEntryAt);
    NotListed(tables, PhaseEvents, PlannedAt);
    NotListed(tables, StorageUploadReservations, GrantExpiresAt);
    NotListed(tables, StorageUploadReservations, CleanupAfter);
  }

  lemma SoundOver(tables: seq<Table>, moved: seq<Column>)
    requires moved == MovedOf(tables)
    requires forall i, j :: 0 <= i < j < |tables| ==> tables[i] != tables[j]
    requires BatchPhases in tables && PhaseEvents in tables && StorageUploadReservations in tables
    requires AuditEvents in tables && RoleGrants in tables
    ensures Sound(PlanWith(moved))
  {
    MovedOfDistinct(tables);
    PhasesFollow(tables);
    EventsFollow(tables);
    ReservationsFollow(tables);
    AuditTrails(tables);
    GrantsLead(tables);
    CompanionsAreNotListed(tables, moved);
    SoundWith(moved);
  }

  /** The lists do not contradict one another. */
  lemma ListsAreSound()
    ensures Sound(LISTS)
  {
    TablesDistinct();
    assert TABLES[15] == RoleGrants && TABLES[16] == AuditEvents && TABLES[25] == BatchPhases
      && TABLES[26] == PhaseEvents && TABLES[42] == StorageUploadReservations;
    SoundOver(TABLES, LISTS.moved);
  }

  lemma SoundWith(moved: seq<Column>)
    requires Distinct(moved)
    requires Column(BatchPhases, UpdatedAt) in moved && Column(PhaseEvents, CreatedAt) in moved
    requires Column(StorageUploadReservations, CreatedAt) in moved
    requires Column(AuditEvents, OccurredAt) in moved && Column(RoleGrants, RevokedAt) in moved
    requires Column(BatchPhases, PlannedEntryAt) !in moved && Column(PhaseEvents, PlannedAt) !in moved
    requires Column(StorageUploadReservations, GrantExpiresAt) !in moved
    requires Column(StorageUploadReservations, CleanupAfter) !in moved
    ensures Sound(PlanWith(moved))
  {
  }
}
