// SupportPublishingJobController: the request decisions of the publishing jobs
// endpoints. The controller holds no state of its own; what its collaborators
// answer during one request (the repository, the job queue's health, the message
// catalog, the current user, and the base class's entity creation) is a
// ControllerHost value.
module JobController {
  import opened Common
  import opened PublishingModel
  import Repository

  /** DefaultPageSize */
  const DefaultPageSize := 10

  /** MessageType.Error.DisplayName; only equality with it matters. */
  const ErrorMessageType := "Error"

  /** The reason phrase of a refused re-publish. */
  const NotAllowedReason := "User not allowed to republish this job"

  /** The state the publish job queue service reports; states other than Error are not told apart. */
  datatype QueueServiceState = Available | Error

  /** The current user, as the user role service reports it. */
  datatype Caller = Caller(Name: string, IsAdministrator: bool)

  /** The repository as the controller sees it (the IPublishRepository interface).
      The database context is the one SetDatabaseContext last set, if any; the
      readers answer for a given context. */
  datatype RepositoryView = RepositoryView(
    findById: string -> Option<PublishingJobEntity>,
    context: Option<string>,
    active: Option<string> -> Option<PublishingJobEntity>,
    queue: (Option<string>, int, int) -> seq<PublishingJobEntity>,
    recent: (Option<string>, int, int) -> seq<PublishingJobEntity>)

  datatype ControllerHost = ControllerHost(
    repository: RepositoryView,
    queueState: QueueServiceState,
    catalog: Catalog,
    caller: Caller,
    /** EntityService.CreateEntity: the entity as it stands after the base class submitted it. */
    createEntity: PublishingJobEntity -> PublishingJobEntity)

  datatype Message = Message(Text: string, Type: string)

  /** The HTTP responses of the publish endpoints. */
  datatype Response = NotFound | BadRequest(ReasonPhrase: string) | Created(Content: PublishingJobEntity)

  /** PublishingJobData; a property the endpoint never sets stays null. */
  datatype PublishingJobData = PublishingJobData(
    Messages: Option<seq<Message>>,
    Active: Option<seq<PublishingJobEntity>>,
    Queued: Option<seq<PublishingJobEntity>>,
    Recent: Option<seq<PublishingJobEntity>>)

  const BlankData := PublishingJobData(None, None, None, None)

  datatype ServiceStatus = ServiceStatus(Healthy: bool, Messages: seq<Message>)

  /** The caller-owned message list that CheckStatus appends to. */
  class MessageList {
    var Items: seq<Message>

    constructor ()
      ensures Items == []
    {
      Items := [];
    }
  }

  /** The messages the health check adds: one error message saying the publish
      service is down when the queue reports Error, none otherwise. */
  function StatusMessages(state: QueueServiceState, catalog: Catalog): seq<Message> {
    if state.Error? then [Message(catalog(PublishServiceDownMessage), ErrorMessageType)] else []
  }

  /** ServiceStatusIsError: some message is of the error type. */
  predicate ServiceStatusIsError(messages: seq<Message>) {
    exists i :: 0 <= i < |messages| && messages[i].Type == ErrorMessageType
  }

  /** The health check adds exactly one message, an error, when the queue reports
      Error, and nothing otherwise; so the error test afterwards holds exactly when
      the queue is down. */
  lemma HealthCheckReportsErrorIffDown(state: QueueServiceState, catalog: Catalog)
    ensures |StatusMessages(state, catalog)| == (if state.Error? then 1 else 0)
    ensures ServiceStatusIsError(StatusMessages(state, catalog)) <==> state.Error?
  {
    if state.Error? {
      assert StatusMessages(state, catalog)[0].Type == ErrorMessageType;
    }
  }

  /** CheckStatus: appends the health check's messages to the caller's list. */
  method CheckStatus(h: ControllerHost, errorMessages: MessageList)
    modifies errorMessages
    ensures errorMessages.Items == old(errorMessages.Items) + StatusMessages(h.queueState, h.catalog)
  {
    var message := h.catalog(PublishServiceDownMessage);
    if h.queueState.Error? {
      errorMessages.Items := errorMessages.Items + [Message(message, ErrorMessageType)];
    }
  }

  /** UserCanRePublish: administrators may re-publish any job, other users only
      the jobs they requested themselves, compared ignoring case. */
  predicate UserCanRePublish(caller: Caller, previousJob: PublishingJobEntity) {
    caller.IsAdministrator ||
    (previousJob.RequestedBy.Some? && EqualsIgnoreCase(caller.Name, previousJob.RequestedBy.value))
  }

  /** A user who is not an administrator may re-publish exactly the jobs whose
      requester's name upper-cases to the same string as theirs; a job without a
      requester only an administrator may re-publish. */
  lemma {:induction false} UserCanRePublishByRequester(caller: Caller, previousJob: PublishingJobEntity)
    ensures caller.IsAdministrator ==> UserCanRePublish(caller, previousJob)
    ensures !caller.IsAdministrator ==>
              (UserCanRePublish(caller, previousJob) <==>
               previousJob.RequestedBy.Some? && FoldAll(caller.Name) == FoldAll(previousJob.RequestedBy.value))
  {
    if previousJob.RequestedBy.Some? {
      EqualsIgnoreCaseFolds(caller.Name, previousJob.RequestedBy.value);
    }
  }

  /** The decision reads the caller's name only up to letter case. */
  lemma UserCanRePublishIgnoresCase(name1: string, name2: string, isAdministrator: bool, previousJob: PublishingJobEntity)
    requires EqualsIgnoreCase(name1, name2)
    ensures UserCanRePublish(Caller(name1, isAdministrator), previousJob) ==
            UserCanRePublish(Caller(name2, isAdministrator), previousJob)
  {
    EqualsIgnoreCaseIsEquivalence(name1, name2, name2);
    if previousJob.RequestedBy.Some? {
      EqualsIgnoreCaseIsEquivalence(name2, name1, previousJob.RequestedBy.value);
      EqualsIgnoreCaseIsEquivalence(name1, name2, previousJob.RequestedBy.value);
    }
  }

  /** Requester "Alice" and caller "alice": the caller may re-publish. */
  lemma RequesterMatchesCallerOfOtherCase(previousJob: PublishingJobEntity)
    requires previousJob.RequestedBy == Some("Alice")
    ensures UserCanRePublish(Caller("alice", false), previousJob)
  {
    assert FoldCase('A') == FoldCase('a');
  }

  /** CanRePublish: false for a job the repository does not find. */
  predicate CanRePublish(h: ControllerHost, id: string) {
    match h.repository.findById(id)
    case None => false
    case Some(previousJob) => UserCanRePublish(h.caller, previousJob)
  }

  /** The job RePublish submits: a new job (no id) with the prior job's metadata,
      item, flags, languages, source database, synchronisation setting and
      targets, requested by the current user; nothing else is set. */
  function RePublishedJob(previousJob: PublishingJobEntity, caller: Caller): PublishingJobEntity {
    BlankEntity.(
      Id := None,
      Metadata := previousJob.Metadata,
      ItemId := previousJob.ItemId,
      IncludeDescendantItems := previousJob.IncludeDescendantItems,
      IncludeRelatedItems := previousJob.IncludeRelatedItems,
      Languages := previousJob.Languages,
      RequestedBy := Some(caller.Name),
      SourceDatabase := previousJob.SourceDatabase,
      SynchroniseWithTarget := previousJob.SynchroniseWithTarget,
      Targets := previousJob.Targets)
  }

  /** The fields RePublish copies from the prior job. */
  predicate SameDescription(a: PublishingJobEntity, b: PublishingJobEntity) {
    && a.Metadata == b.Metadata && a.ItemId == b.ItemId
    && a.IncludeDescendantItems == b.IncludeDescendantItems && a.IncludeRelatedItems == b.IncludeRelatedItems
    && a.Languages == b.Languages && a.SourceDatabase == b.SourceDatabase
    && a.SynchroniseWithTarget == b.SynchroniseWithTarget && a.Targets == b.Targets
  }

  /** The re-published job describes the same publish as the prior one, is
      requested by the current user, and depends on nothing else of the prior job:
      its id, requester, manifests, status and times are not carried over. */
  lemma RePublishedJobCopiesDescriptionOnly(p1: PublishingJobEntity, p2: PublishingJobEntity, caller: Caller)
    ensures SameDescription(RePublishedJob(p1, caller), p1)
    ensures RePublishedJob(p1, caller).RequestedBy == Some(caller.Name)
    ensures RePublishedJob(p1, caller).Id.None? && RePublishedJob(p1, caller).ManifestIdList.None?
    ensures RePublishedJob(p1, caller).Status.None? && RePublishedJob(p1, caller).TimeRequested.None?
    ensures RePublishedJob(p1, caller).TimeStarted.None? && RePublishedJob(p1, caller).TimeStopped.None?
    ensures SameDescription(p1, p2) ==> RePublishedJob(p1, caller) == RePublishedJob(p2, caller)
  {
  }

  /** When the repository completes the re-published job for submission, the
      current user stays its requester (a non-empty name is never replaced) and the
      copied description is untouched. */
  lemma RePublishedJobKeepsCallerOnAdd(host: Repository.RepositoryHost, previousJob: PublishingJobEntity,
                                       caller: Caller, currentUser: string, requestedAt: string)
    requires caller.Name != ""
    ensures var prepared := Repository.PreparedEntity(host, RePublishedJob(previousJob, caller), currentUser, requestedAt);
            prepared.RequestedBy == Some(caller.Name) &&
            prepared.ItemId == previousJob.ItemId && prepared.Languages == previousJob.Languages &&
            prepared.Targets == previousJob.Targets && prepared.SourceDatabase == previousJob.SourceDatabase &&
            prepared.IncludeDescendantItems == previousJob.IncludeDescendantItems &&
            prepared.IncludeRelatedItems == previousJob.IncludeRelatedItems &&
            prepared.SynchroniseWithTarget == previousJob.SynchroniseWithTarget &&
            (previousJob.Metadata.Some? ==> prepared.Metadata == previousJob.Metadata)
  {
  }

  /** RePublish: not found, refused, or the response of creating the new job. */
  function RePublish(h: ControllerHost, jobId: string): Response {
    match h.repository.findById(jobId)
    case None => NotFound
    case Some(previousJob) =>
      if UserCanRePublish(h.caller, previousJob) then
        Created(h.createEntity(RePublishedJob(previousJob, h.caller)))
      else
        BadRequest(NotAllowedReason)
  }

  /** RePublish and CanRePublish agree: a job is re-published exactly when
      CanRePublish says so; it is "not found" exactly when the repository does not
      find it; and every other request is refused with the fixed reason phrase. */
  lemma RePublishAgreesWithCanRePublish(h: ControllerHost, jobId: string)
    ensures RePublish(h, jobId).Created? <==> CanRePublish(h, jobId)
    ensures RePublish(h, jobId).NotFound? <==> h.repository.findById(jobId).None?
    ensures RePublish(h, jobId).BadRequest? <==>
              h.repository.findById(jobId).Some? && !CanRePublish(h, jobId)
    ensures RePublish(h, jobId).BadRequest? ==> RePublish(h, jobId).ReasonPhrase == NotAllowedReason
    ensures RePublish(h, jobId).Created? ==>
              RePublish(h, jobId) == Created(h.createEntity(RePublishedJob(h.repository.findById(jobId).value, h.caller)))
  {
  }

  /** A refused or not-found re-publish creates nothing: its response is the same
      whatever entity creation would have done. */
  lemma RePublishRefusedCreatesNothing(h: ControllerHost, create: PublishingJobEntity -> PublishingJobEntity, jobId: string)
    requires !CanRePublish(h, jobId)
    ensures RePublish(h, jobId) == RePublish(h.(createEntity := create), jobId)
    ensures !RePublish(h, jobId).Created?
  {
  }

  /** FullPublish: creates the entity as given. */
  function FullPublish(h: ControllerHost, entity: PublishingJobEntity): Response {
    Created(h.createEntity(entity))
  }

  /** ItemPublish: the entity must name an item; otherwise nothing is created. */
  function ItemPublish(h: ControllerHost, entity: PublishingJobEntity): Outcome<Response> {
    if entity.ItemId.None? then Thrown(ArgumentNull("itemId")) else Ok(Created(h.createEntity(entity)))
  }

  /** ItemPublish throws exactly for an entity without an item id and otherwise
      behaves as FullPublish, which accepts either. */
  lemma ItemPublishRequiresItemId(h: ControllerHost, entity: PublishingJobEntity)
    ensures ItemPublish(h, entity).Thrown? <==> entity.ItemId.None?
    ensures ItemPublish(h, entity).Thrown? ==> ItemPublish(h, entity).fault == ArgumentNull("itemId")
    ensures entity.ItemId.Some? ==> ItemPublish(h, entity) == Ok(FullPublish(h, entity))
  {
  }

  /** A found active job as a list of zero or one entity. */
  function ActiveList(active: Option<PublishingJobEntity>): (jobs: seq<PublishingJobEntity>)
    ensures |jobs| <= 1
    ensures jobs == [] <==> active.None?
    ensures active.Some? ==> jobs[0] == active.value
  {
    if active.Some? then [active.value] else []
  }

  /** All: with the queue down, empty lists and the health check's messages
      without touching the repository; otherwise the active job, and the first
      page of queued and of recent jobs, read in the requested database context
      (a null or empty database name is rejected). */
  function All(h: ControllerHost, sourceDatabase: Option<string>): Outcome<PublishingJobData> {
    var messages := StatusMessages(h.queueState, h.catalog);
    if ServiceStatusIsError(messages) then
      Ok(PublishingJobData(Some(messages), Some([]), Some([]), Some([])))
    else if NullOrEmpty(sourceDatabase) then
      Thrown(ArgumentEmpty("databaseName"))
    else
      var repository := h.repository;
      Ok(PublishingJobData(
        Some(messages),
        Some(ActiveList(repository.active(sourceDatabase))),
        Some(repository.queue(sourceDatabase, 0, DefaultPageSize)),
        Some(repository.recent(sourceDatabase, 0, DefaultPageSize))))
  }

  /** With the queue down, All answers empty lists and one error message, and the
      answer is the same whatever the repository holds and whatever database is
      asked for: the repository is not consulted. */
  lemma AllWhenServiceDown(h: ControllerHost, repository: RepositoryView, db1: Option<string>, db2: Option<string>)
    requires h.queueState.Error?
    ensures All(h, db1) == All(h.(repository := repository), db2)
    ensures All(h, db1).Ok?
    ensures var data := All(h, db1).value;
            data.Active == Some([]) && data.Queued == Some([]) && data.Recent == Some([]) &&
            data.Messages.Some? && |data.Messages.value| == 1 && ServiceStatusIsError(data.Messages.value)
  {
    HealthCheckReportsErrorIffDown(h.queueState, h.catalog);
  }

  /** With the queue available, All carries no messages, at most one active job
      (none exactly when the repository has none), and the first pages of ten
      queued and recent jobs in the requested database context. */
  lemma AllWhenServiceUp(h: ControllerHost, sourceDatabase: Option<string>)
    requires !h.queueState.Error?
    ensures All(h, sourceDatabase).Thrown? <==> NullOrEmpty(sourceDatabase)
    ensures All(h, sourceDatabase).Ok? ==>
              var data := All(h, sourceDatabase).value;
              && data.Messages == Some([])
              && data.Active.Some? && |data.Active.value| <= 1
              && (data.Active == Some([]) <==> h.repository.active(sourceDatabase).None?)
              && data.Active == Some(ActiveList(h.repository.active(sourceDatabase)))
              && data.Queued == Some(h.repository.queue(sourceDatabase, 0, 10))
              && data.Recent == Some(h.repository.recent(sourceDatabase, 0, 10))
  {
    HealthCheckReportsErrorIffDown(h.queueState, h.catalog);
  }

  /** Active: reads the active job even when the queue is down. */
  function Active(h: ControllerHost): PublishingJobData {
    var messages := StatusMessages(h.queueState, h.catalog);
    var activeJob := h.repository.active(h.repository.context);
    PublishingJobData(Some(messages), Some(ActiveList(activeJob)), Some([]), None)
  }

  /** Recent: reads the recent jobs even when the queue is down. */
  function Recent(h: ControllerHost, top: int): PublishingJobData {
    var messages := StatusMessages(h.queueState, h.catalog);
    var recentJobs := h.repository.recent(h.repository.context, 0, top);
    PublishingJobData(Some(messages), Some([]), None, Some(recentJobs))
  }

  /** Unlike All and Queued, Active and Recent answer with the repository's jobs
      whatever the queue's state: the health check only adds its message. */
  lemma ActiveAndRecentIgnoreHealth(h: ControllerHost, top: int)
    ensures Active(h).Active == Some(ActiveList(h.repository.active(h.repository.context)))
    ensures Active(h).Active == Active(h.(queueState := QueueServiceState.Error)).Active
    ensures Recent(h, top).Recent == Some(h.repository.recent(h.repository.context, 0, top))
    ensures Recent(h, top).Recent == Recent(h.(queueState := QueueServiceState.Error), top).Recent
    ensures h.queueState.Error? ==> ServiceStatusIsError(Active(h).Messages.value) && ServiceStatusIsError(Recent(h, top).Messages.value)
  {
    HealthCheckReportsErrorIffDown(h.queueState, h.catalog);
  }

  /** Queued: fills the answer field by field; the queued page is read only when
      the queue is not down. */
  method Queued(h: ControllerHost, top: int) returns (publishJobData: PublishingJobData)
    ensures publishJobData.Messages == Some(StatusMessages(h.queueState, h.catalog))
    ensures publishJobData.Active == Some([]) && publishJobData.Recent == Some([])
    ensures h.queueState.Error? ==> publishJobData.Queued == Some([])
    ensures !h.queueState.Error? ==> publishJobData.Queued == Some(h.repository.queue(h.repository.context, 0, top))
  {
    publishJobData := BlankData;
    var messages := new MessageList();
    CheckStatus(h, messages);
    assert messages.Items == StatusMessages(h.queueState, h.catalog);
    publishJobData := publishJobData.(Messages := Some(messages.Items));
    publishJobData := publishJobData.(Recent := Some([]));
    publishJobData := publishJobData.(Active := Some([]));
    HealthCheckReportsErrorIffDown(h.queueState, h.catalog);
    if ServiceStatusIsError(messages.Items) {
      publishJobData := publishJobData.(Queued := Some([]));
    } else {
      publishJobData := publishJobData.(Queued := Some(h.repository.queue(h.repository.context, 0, top)));
    }
  }

  /** Status: healthy exactly when the health check added no message, that is
      exactly when the queue is not down. */
  function Status(h: ControllerHost): (status: ServiceStatus)
    ensures status.Healthy <==> |status.Messages| == 0
    ensures status.Healthy <==> !h.queueState.Error?
    ensures status.Messages == StatusMessages(h.queueState, h.catalog)
  {
    var messages := StatusMessages(h.queueState, h.catalog);
    ServiceStatus(|messages| == 0, messages)
  }
}
