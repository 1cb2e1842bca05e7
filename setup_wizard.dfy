/** The decisions the setup wizard takes when the operator presses "Setup
    Billing Export and Dashboard": the four-field gate, the provisioning
    calls it then issues, and the export-readiness test on the table listing.
    Cloud results (whether the dataset was found, the table listing) are
    parameters; the calls are recorded rather than performed. */
module SetupWizard {
  import opened Wrappers

  /** The export dataset's fixed name and location. */
  const DatasetId: string := "billing_export"
  const DatasetLocation: string := "EU"

  /** One table per billing-export granularity. */
  const ExpectedTableCount: nat := 2

  /** The APIs enabled before the dataset is created, in order. */
  const RequiredServices: seq<string> :=
    ["serviceusage.googleapis.com", "bigquery.googleapis.com", "cloudbilling.googleapis.com"]

  datatype Table = Table(tableId: string)

  /** Any exception raised while listing the dataset's tables. */
  datatype ListError = ListError(message: string)

  /** The form fields held in the session when the button is pressed. */
  datatype Session = Session(projectId: string, billingId: string, identityType: string, identityEmail: string)

  /** A cloud call the wizard issues, in the order it issues them. */
  datatype CloudCall =
    | EnableService(service: string, project: string)
    | CreateDataset(project: string, location: string, dataset: string)
    | GetDataset(project: string, dataset: string)
    | ListTables(project: string, dataset: string)

  /** What the operator is shown after pressing the button. */
  datatype Outcome =
    | FieldsMissing          // "Please fill in all the required fields."
    | DatasetError           // "There was an error creating the dataset."
    | ExportReady            // "BigQuery dataset is ready for billing export."
    | AwaitingExport         // manual billing-export instructions

  datatype SetupRun = SetupRun(outcome: Outcome, calls: seq<CloudCall>)

  // ---------------------------------------------------------------------
  // Export readiness
  // ---------------------------------------------------------------------

  /** The readiness test: the listing succeeded with exactly two tables. A
      listing that raised counts as not ready. */
  function TablesReady(listing: Result<seq<Table>, ListError>): (ready: bool)
    ensures ready ==> listing.Ok?
    ensures listing.Ok? ==> (ready <==> |listing.value| == ExpectedTableCount)
  {
    match listing
    case Ok(tables) => |tables| == 2
    case Err(_) => false
  }

  /** The worked cases of the readiness test, listed one by one; they add no
      fact beyond the contract of TablesReady. Zero, one or three and more
      tables, or a failed listing, are all "not yet"; two tables, whatever
      they are, are "ready". */
  lemma ReadinessCases(tables: seq<Table>, e: ListError)
    ensures !TablesReady(Err(e))
    ensures |tables| < 2 ==> !TablesReady(Ok(tables))
    ensures |tables| > 2 ==> !TablesReady(Ok(tables))
    ensures |tables| == 2 ==> TablesReady(Ok(tables))
  {
  }

  // ---------------------------------------------------------------------
  // The form gate
  // ---------------------------------------------------------------------

  /** The four required fields, in form order. */
  function Fields(s: Session): seq<string> {
    [s.projectId, s.billingId, s.identityType, s.identityEmail]
  }

  /** The session with field `i` (in form order) replaced by `v`. */
  function WithField(s: Session, i: nat, v: string): (r: Session)
    requires i < 4
    ensures Fields(r) == Fields(s)[i := v]
  {
    if i == 0 then s.(projectId := v)
    else if i == 1 then s.(billingId := v)
    else if i == 2 then s.(identityType := v)
    else s.(identityEmail := v)
  }

  /** Every required field is non-empty (each is tested for truth). */
  predicate FormComplete(s: Session) {
    s.projectId != "" && s.billingId != "" && s.identityType != "" && s.identityEmail != ""
  }

  /** The gate passes exactly when no field of the form is empty. */
  lemma FormCompleteIffNoEmptyField(s: Session)
    ensures FormComplete(s) <==> "" !in Fields(s)
  {
  }

  // ---------------------------------------------------------------------
  // Pressing the setup button
  // ---------------------------------------------------------------------

  /** The provisioning calls for a project: enable the required services,
      create the dataset (existing is fine), then look it up. */
  function ProvisionCalls(project: string): (calls: seq<CloudCall>)
    ensures forall c :: c in calls ==> c.project == project
    ensures |calls| == |RequiredServices| + 2
    ensures forall i :: 0 <= i < |RequiredServices| ==> calls[i] == EnableService(RequiredServices[i], project)
    ensures calls[|calls| - 2] == CreateDataset(project, DatasetLocation, DatasetId)
    ensures calls[|calls| - 1] == GetDataset(project, DatasetId)
  {
    [EnableService(RequiredServices[0], project),
     EnableService(RequiredServices[1], project),
     EnableService(RequiredServices[2], project),
     CreateDataset(project, DatasetLocation, DatasetId),
     GetDataset(project, DatasetId)]
  }

  /** One press of the setup button. `datasetFound` is the result of looking
      the dataset up after creating it; `listing` is the table listing,
      consulted only when the dataset was found. Failures of the service
      enablement calls are swallowed and do not influence the outcome. */
  function RunSetup(s: Session, datasetFound: bool, listing: Result<seq<Table>, ListError>): (r: SetupRun)
    ensures r.outcome == FieldsMissing <==> !FormComplete(s)
    ensures r.outcome == FieldsMissing <==> r.calls == []
    ensures r.outcome == DatasetError <==> FormComplete(s) && !datasetFound
    ensures r.outcome == ExportReady <==> FormComplete(s) && datasetFound && TablesReady(listing)
    ensures r.outcome == AwaitingExport <==> FormComplete(s) && datasetFound && !TablesReady(listing)
    ensures forall c :: c in r.calls ==> c.project == s.projectId
    ensures ListTables(s.projectId, DatasetId) in r.calls <==> FormComplete(s) && datasetFound
    ensures r.calls != [] ==> ProvisionCalls(s.projectId) <= r.calls
    ensures FormComplete(s) ==> |r.calls| == |ProvisionCalls(s.projectId)| + (if datasetFound then 1 else 0)
  {
    if !FormComplete(s) then SetupRun(FieldsMissing, [])
    else
      var provision := ProvisionCalls(s.projectId);
      if !datasetFound then SetupRun(DatasetError, provision)
      else
        var calls := provision + [ListTables(s.projectId, DatasetId)];
        if TablesReady(listing) then SetupRun(ExportReady, calls)
        else SetupRun(AwaitingExport, calls)
  }

  /** Emptying any one of the four fields stops the run before any cloud
      call, whatever the cloud would have answered. */
  lemma EmptyFieldBlocksSetup(s: Session, i: nat, datasetFound: bool, listing: Result<seq<Table>, ListError>)
    requires i < 4
    ensures RunSetup(WithField(s, i, ""), datasetFound, listing) == SetupRun(FieldsMissing, [])
  {
  }
}
