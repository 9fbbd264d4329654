// The status translator of PublishingJobRepository: three fixed tables from an
// enumeration to a message-catalog key, and the precedence rule that picks the
// status shown for one target of a job.
module StatusTranslation {
  import opened Common
  import opened PublishingModel

  /** The key TranslatePublishType reads for each job type; every type has its own key. */
  function PublishTypeKey(t: PublishJobType): (k: MessageKey)
    ensures k == RepublishAllItemsText <==> t.Full?
    ensures k == SitePublishText <==> t.Incremental?
    ensures k == ItemPublishText <==> t.SingleItem?
    ensures k == FullRepublishText <==> t.Republish?
  {
    match t
    case Full => RepublishAllItemsText
    case Incremental => SitePublishText
    case SingleItem => ItemPublishText
    case Republish => FullRepublishText
  }

  /** The key TranslateJobStatus reads for each job state, as the table is written:
      Cancelled reads the "republish all items" label and CompleteWithErrors the
      "item publish" label. Every state has its own key. */
  function JobStatusKey(s: PublishingJobStatus): (k: MessageKey)
    ensures k == RepublishAllItemsText <==> s.Cancelled?
    ensures k == CompleteStatusText <==> s.Complete?
    ensures k == ItemPublishText <==> s.CompleteWithErrors?
    ensures k == FailedStatusText <==> s.Failed?
    ensures k == InProgressStatusText <==> s.Started?
    ensures k == QueuedStatusText <==> s.Queued?
  {
    match s
    case Cancelled => RepublishAllItemsText
    case Complete => CompleteStatusText
    case CompleteWithErrors => ItemPublishText
    case Failed => FailedStatusText
    case Started => InProgressStatusText
    case Queued => QueuedStatusText
  }

  /** The key TranslateManifestOperationStatus reads for each manifest status:
      the table is total over the four statuses and gives each its own key. */
  function ManifestStatusKey(s: ManifestOperationStatus): (k: MessageKey)
    ensures k == CompleteStatusText <==> s.Complete?
    ensures k == FailedStatusText <==> s.Error?
    ensures k == QueuedStatusText <==> s.Ready?
    ensures k == RunningStatusText <==> s.Running?
  {
    match s
    case Complete => CompleteStatusText
    case Error => FailedStatusText
    case Ready => QueuedStatusText
    case Running => RunningStatusText
  }

  function TranslatePublishType(catalog: Catalog, t: PublishJobType): string {
    catalog(PublishTypeKey(t))
  }

  function TranslateJobStatus(catalog: Catalog, s: PublishingJobStatus): string {
    catalog(JobStatusKey(s))
  }

  function TranslateManifestOperationStatus(catalog: Catalog, s: ManifestOperationStatus): string {
    catalog(ManifestStatusKey(s))
  }

  /** A catalog that stores a different text under every key. */
  ghost predicate DistinctTexts(catalog: Catalog) {
    forall k1: MessageKey, k2: MessageKey :: k1 != k2 ==> catalog(k1) != catalog(k2)
  }

  /** With a catalog that tells its keys apart, the four manifest statuses are
      displayed as four different texts. */
  lemma ManifestStatusTextsDistinct(catalog: Catalog, a: ManifestOperationStatus, b: ManifestOperationStatus)
    requires DistinctTexts(catalog)
    ensures TranslateManifestOperationStatus(catalog, a) == TranslateManifestOperationStatus(catalog, b) <==> a == b
  {
    if a != b {
      assert ManifestStatusKey(a) != ManifestStatusKey(b);
    }
  }

  /** Whatever the catalog holds, a Cancelled job displays the label of a full
      publish and a job completed with errors the label of a single-item publish;
      the other four states display the text of the matching manifest status,
      except Started, which reads the in-progress text rather than the running one. */
  lemma JobStatusTextsAsWritten(catalog: Catalog)
    ensures TranslateJobStatus(catalog, PublishingJobStatus.Cancelled) == TranslatePublishType(catalog, Full)
    ensures TranslateJobStatus(catalog, PublishingJobStatus.CompleteWithErrors) == TranslatePublishType(catalog, SingleItem)
    ensures TranslateJobStatus(catalog, PublishingJobStatus.Complete) == TranslateManifestOperationStatus(catalog, ManifestOperationStatus.Complete)
    ensures TranslateJobStatus(catalog, PublishingJobStatus.Failed) == TranslateManifestOperationStatus(catalog, ManifestOperationStatus.Error)
    ensures TranslateJobStatus(catalog, PublishingJobStatus.Queued) == TranslateManifestOperationStatus(catalog, Ready)
    ensures TranslateJobStatus(catalog, PublishingJobStatus.Started) == catalog(InProgressStatusText)
  {
  }

  /** The manifest status a target of a job is shown with: that of its manifest
      status record when there is one; otherwise Ready while the job is queued,
      Running while it is started, and Error in every other job state. */
  function EffectiveStatus(jobStatus: PublishJobStatus, record: Option<ManifestStatus>): (s: ManifestOperationStatus)
    ensures record.Some? ==> s == record.value.OperationStatus
    ensures record.None? ==> (s.Ready? <==> jobStatus.Queued?)
    ensures record.None? ==> (s.Running? <==> jobStatus.Started?)
    ensures record.None? ==> (s.Error? <==> !jobStatus.Queued? && !jobStatus.Started?)
    ensures record.None? ==> !s.Complete?
  {
    match record
    case Some(r) => r.OperationStatus
    case None =>
      if jobStatus.Queued? then Ready
      else if jobStatus.Started? then Running
      else ManifestOperationStatus.Error
  }

  /** The displayed status text of a target. */
  function TargetStatusText(catalog: Catalog, jobStatus: PublishJobStatus, record: Option<ManifestStatus>): string {
    TranslateManifestOperationStatus(catalog, EffectiveStatus(jobStatus, record))
  }

  /** A manifest status record, once it exists, decides the text alone: the job
      state then makes no difference. */
  lemma ManifestRecordTakesPrecedence(catalog: Catalog, j1: PublishJobStatus, j2: PublishJobStatus, record: ManifestStatus)
    ensures TargetStatusText(catalog, j1, Some(record)) == TargetStatusText(catalog, j2, Some(record))
    ensures TargetStatusText(catalog, j1, Some(record)) == TranslateManifestOperationStatus(catalog, record.OperationStatus)
  {
  }
}
