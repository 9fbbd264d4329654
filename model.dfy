// The data the publishing client service moves around: the job queue's jobs,
// the manifest statuses, the directory entries a job refers to, and the view
// entity handed to the client. Ids and times are kept in their formatted string
// form (a job id as Guid.ToString("B"), a time in ISO form).
module PublishingModel {
  import opened Common

  /** The queue's own job state (Sitecore.Framework.Publishing.PublishJobQueue.PublishJobStatus). */
  datatype PublishJobStatus = Queued | Started | Complete | CompleteWithErrors | Failed | Cancelled

  /** The client-side job state that the job-status table translates. */
  datatype PublishingJobStatus = Queued | Started | Complete | CompleteWithErrors | Failed | Cancelled

  /** Progress of one manifest, that is of one job on one target. */
  datatype ManifestOperationStatus = Ready | Running | Complete | Error

  /** The kind of publish, computed from a job's populated fields by the host. */
  datatype PublishJobType = Full | Incremental | SingleItem | Republish

  /** The keys of the client UI message catalog that the modelled code reads. */
  datatype MessageKey =
    | RepublishAllItemsText
    | SitePublishText
    | ItemPublishText
    | FullRepublishText
    | CompleteStatusText
    | FailedStatusText
    | InProgressStatusText
    | QueuedStatusText
    | RunningStatusText
    | PublishServiceDownMessage

  /** The message catalog for the client language: the text stored under each key. */
  type Catalog = MessageKey -> string

  /** The options a job was queued with. */
  datatype JobOptions = JobOptions(
    ItemId: Option<string>,
    Languages: seq<string>,
    Targets: seq<string>,
    User: Option<string>,
    Source: Option<string>,
    Descendants: bool,
    RelatedItems: bool,
    Metadata: Option<map<string, string>>)

  /** A job as the job provider returns it. */
  datatype PublishJob = PublishJob(
    Id: string,
    Options: JobOptions,
    Manifests: seq<string>,
    AffectedItems: int,
    Status: PublishJobStatus,
    StatusMessage: Option<string>,
    Queued: string,
    Started: Option<string>,
    Stopped: Option<string>)

  /** One manifest's status record, tagged with the target it publishes to. */
  datatype ManifestStatus = ManifestStatus(TargetId: string, OperationStatus: ManifestOperationStatus)

  /** A language known to the content database. */
  datatype Language = Language(Name: string, DisplayName: string)

  /** A publishing target item. */
  datatype TargetItem = TargetItem(Id: string, Name: string, DisplayName: string)

  /** A content item, as far as the view needs it. */
  datatype ContentItem = ContentItem(Name: string, ContentPath: string)

  /** A language line of the view. */
  datatype PublishingLanguage = PublishingLanguage(Code: string, DisplayName: string)

  /** A target line of the view, with its displayed status text. */
  datatype PublishingTarget = PublishingTarget(Id: string, Name: string, Status: string)

  /** The view entity exchanged with the client. Every reference-typed property may be null. */
  datatype PublishingJobEntity = PublishingJobEntity(
    Id: Option<string>,
    ItemId: Option<string>,
    ItemName: Option<string>,
    StartPath: Option<string>,
    ManifestIdList: Option<seq<string>>,
    Languages: Option<seq<PublishingLanguage>>,
    NumberOfItems: int,
    RequestedBy: Option<string>,
    Status: Option<string>,
    StatusMessage: Option<string>,
    Targets: Option<seq<PublishingTarget>>,
    TimeRequested: Option<string>,
    TimeStarted: Option<string>,
    TimeStopped: Option<string>,
    Type: Option<PublishJobType>,
    TypeDisplayName: Option<string>,
    IncludeDescendantItems: bool,
    IncludeRelatedItems: bool,
    SynchroniseWithTarget: bool,
    SourceDatabase: Option<string>,
    Metadata: Option<map<string, string>>)

  /** `new PublishingJobEntity()`: every property at its default. */
  const BlankEntity := PublishingJobEntity(
    None, None, None, None, None, None, 0, None, None, None, None,
    None, None, None, None, None, false, false, false, None, None)
}
