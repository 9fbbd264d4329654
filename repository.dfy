// PublishingJobRepository: reads jobs from the host's job provider and projects
// them onto view entities, and submits new jobs. Every host collaborator (job
// provider, manifest provider, database factory, settings, message catalog,
// language and target directories, the job-type and conversion helpers) is a
// field of RepositoryHost, fixed for the lifetime of one repository.
module Repository {
  import opened Common
  import opened PublishingModel
  import opened StatusTranslation
  import opened JobProjection

  datatype RepositoryHost = RepositoryHost(
    catalog: Catalog,                                      // client UI messages, in the client language
    defaultSourceDatabase: string,                         // settings: default source database name
    databaseExists: string -> bool,                        // database factory: GetDatabase(name) != null
    getItem: (string, string) -> Option<ContentItem>,      // Database.GetItem(item id, client language) in a database
    languagesByCode: seq<string> -> seq<Language>,         // LanguageManagerExtensions.GetLanguagesByCode
    publishingTargets: seq<TargetItem>,                    // PublishManager.GetPublishingTargets
    jobTypeOf: PublishJob -> PublishJobType,               // PublishJob.CalculateJobType
    clientStatus: PublishJobStatus -> PublishingJobStatus, // ToPublishingJobStatus
    entityJobType: PublishingJobEntity -> PublishJobType,  // PublishingJobEntity.CalculateJobType
    typeName: PublishJobType -> string,                    // PublishJobType.DisplayName
    toJobOptions: PublishingJobEntity -> JobOptions,       // PublishingJobEntity.ToJob(...).Options
    activeJob: Option<PublishJob>,                         // job provider: GetActive
    queue: (int, int) -> seq<PublishJob>,                  // job provider: GetQueue(skip, take)
    recent: (int, int) -> seq<PublishJob>,                 // job provider: GetRecent(skip, take)
    allJobs: seq<PublishJob>,                              // job provider: GetAll
    getJob: string -> Option<PublishJob>,                  // job provider: Get(id)
    jobExists: string -> bool,                             // job provider: Exists(id)
    manifestStatuses: seq<string> -> seq<ManifestStatus>)  // manifest provider: GetManifestStatuses

  /** The job options handed to the job provider's Add. */
  datatype Submission = Submission(Options: JobOptions, PublishType: string, DetectCloneSources: bool)

  /** Manifest status requests keyed by job id, with the keys in insertion order. */
  datatype ManifestRequests = ManifestRequests(Keys: seq<string>, Entries: map<string, seq<ManifestStatus>>)

  /** No two jobs share an id. */
  predicate DistinctIds(jobs: seq<PublishJob>) {
    forall i, j :: 0 <= i < j < |jobs| ==> jobs[i].Id != jobs[j].Id
  }

  /** With distinct ids, looking a job up by its id (jobs.FirstOrDefault(j => j.Id == id)) finds that job. */
  lemma FirstWithIdIsAt(jobs: seq<PublishJob>, k: nat)
    requires DistinctIds(jobs) && k < |jobs|
    ensures FirstWhere(jobs, (j: PublishJob) => j.Id == jobs[k].Id) == Some(jobs[k])
  {
    var key := jobs[k].Id;
    var found := FirstWhere(jobs, (j: PublishJob) => j.Id == key);
    assert found.Some? by {
      assert !(forall i :: 0 <= i < |jobs| ==> !(jobs[i].Id == key)) by { assert jobs[k].Id == key; }
    }
    var i :| 0 <= i < |jobs| && jobs[i] == found.value && jobs[i].Id == key &&
             forall j :: 0 <= j < i ==> !(jobs[j].Id == key);
    assert i == k;
  }

  /** The language codes of all jobs, job by job (jobs.SelectMany(j => j.Options.Languages)). */
  function AllLanguageCodes(jobs: seq<PublishJob>): seq<string> {
    if |jobs| == 0 then [] else AllLanguageCodes(jobs[..|jobs| - 1]) + jobs[|jobs| - 1].Options.Languages
  }

  /** Clone sources are detected exactly for single-item and incremental publishes. */
  predicate DetectsCloneSources(t: PublishJobType) {
    t == SingleItem || t == Incremental
  }

  /** The entity as Add completes it before submitting it: the current user as
      requester when none is given, the computed job type, the request time, and
      an empty metadata map when none is given. */
  function PreparedEntity(host: RepositoryHost, entity: PublishingJobEntity, currentUser: string,
                          requestedAt: string): PublishingJobEntity
  {
    var requester := if NullOrEmpty(entity.RequestedBy) then Some(currentUser) else entity.RequestedBy;
    var typed := entity.(RequestedBy := requester);
    typed.(Type := Some(host.entityJobType(typed)),
           TimeRequested := Some(requestedAt),
           Metadata := if entity.Metadata.None? then Some(map[]) else entity.Metadata)
  }

  /** Add's normalisation: a given requester is kept and a missing one becomes the
      current user; given metadata is kept and missing metadata becomes empty; the
      other fields the client sent are untouched. */
  lemma PreparedEntityNormalises(host: RepositoryHost, entity: PublishingJobEntity, currentUser: string,
                                 requestedAt: string)
    ensures var e := PreparedEntity(host, entity, currentUser, requestedAt);
            && (e.RequestedBy == entity.RequestedBy <==> !NullOrEmpty(entity.RequestedBy) || entity.RequestedBy == Some(currentUser))
            && (NullOrEmpty(entity.RequestedBy) ==> e.RequestedBy == Some(currentUser))
            && (e.Metadata == entity.Metadata <==> entity.Metadata.Some?)
            && e.Metadata.Some?
            && (entity.Metadata.None? ==> e.Metadata == Some(map[]))
            && e.Type.Some? && e.TimeRequested == Some(requestedAt)
            && e.(RequestedBy := entity.RequestedBy, Type := entity.Type, TimeRequested := entity.TimeRequested,
                  Metadata := entity.Metadata) == entity
  {
  }

  /** Completing an already completed entity again changes neither its requester
      nor its metadata. */
  lemma PreparedEntityStable(host: RepositoryHost, entity: PublishingJobEntity, user1: string, user2: string,
                             t1: string, t2: string)
    ensures var once := PreparedEntity(host, entity, user1, t1);
            var twice := PreparedEntity(host, once, user2, t2);
            twice.RequestedBy == once.RequestedBy || (NullOrEmpty(entity.RequestedBy) && user1 == "")
    ensures PreparedEntity(host, PreparedEntity(host, entity, user1, t1), user2, t2).Metadata ==
            PreparedEntity(host, entity, user1, t1).Metadata
  {
  }

  class PublishingJobRepository {
    const host: RepositoryHost
    /** The database item lookups use; null until set by SetDatabaseContext or by the first item lookup. */
    var sourceDatabase: Option<string>

    constructor (host: RepositoryHost)
      ensures this.host == host && sourceDatabase == None
    {
      this.host := host;
      sourceDatabase := None;
    }

    /** SetDatabaseContext: a null or empty name is rejected and leaves the context as it was. */
    method SetDatabaseContext(databaseName: Option<string>) returns (r: Outcome<()>)
      modifies this`sourceDatabase
      ensures r.Thrown? <==> NullOrEmpty(databaseName)
      ensures r.Thrown? ==> r.fault == ArgumentEmpty("databaseName") && sourceDatabase == old(sourceDatabase)
      ensures r.Ok? ==> sourceDatabase == databaseName
    {
      if NullOrEmpty(databaseName) {
        return Thrown(ArgumentEmpty("databaseName"));
      }
      sourceDatabase := databaseName;
      r := Ok(());
    }

    /** The database an item lookup uses in context `ctx`. */
    function ItemDatabase(ctx: Option<string>): string {
      if ctx.None? then host.defaultSourceDatabase else ctx.value
    }

    /** The item a lookup finds in context `ctx`: none when the database is missing. */
    function ItemIn(ctx: Option<string>, itemId: string): (item: Option<ContentItem>)
      ensures !host.databaseExists(ItemDatabase(ctx)) ==> item.None?
    {
      var db := ItemDatabase(ctx);
      if host.databaseExists(db) then host.getItem(db, itemId) else None
    }

    /** The item ToEntity shows for `job` in context `ctx`: none when the job has no item id. */
    function ItemOf(ctx: Option<string>, job: PublishJob): Option<ContentItem> {
      if job.Options.ItemId.Some? then ItemIn(ctx, job.Options.ItemId.value) else None
    }

    /** The context after looking up the items of `jobs`: the default database is
        fixed by the first lookup when no context was set. */
    function ContextAfter(ctx: Option<string>, jobs: seq<PublishJob>): (after: Option<string>)
      ensures ItemDatabase(after) == ItemDatabase(ctx)
    {
      if ctx.None? && exists i :: 0 <= i < |jobs| && jobs[i].Options.ItemId.Some?
      then Some(host.defaultSourceDatabase) else ctx
    }

    /** The entity ToEntity builds for `job` in context `ctx`, given the resolved languages. */
    function EntityOf(ctx: Option<string>, job: PublishJob, allLanguages: seq<Language>): PublishingJobEntity {
      JobEntityView(job, host.manifestStatuses(job.Manifests), allLanguages, host.publishingTargets,
                    ItemOf(ctx, job), host.jobTypeOf(job), host.clientStatus(job.Status), host.catalog)
    }

    /** GetLanguages: no lookup at all for an empty list of codes. */
    function GetLanguages(languageCodes: seq<string>): (languages: seq<Language>)
      ensures |languageCodes| == 0 ==> languages == []
    {
      if |languageCodes| == 0 then [] else host.languagesByCode(languageCodes)
    }

    /** Add: completes the entity (see PreparedEntity), submits it to the job
        provider, and sets the id the provider assigned. The request time and the
        assigned id come from the host. */
    method Add(entity: PublishingJobEntity, currentUser: string, requestedAt: string, assignedId: string)
      returns (stored: PublishingJobEntity, submitted: Submission)
      ensures var prepared := PreparedEntity(host, entity, currentUser, requestedAt);
              stored == prepared.(Id := Some(assignedId)) &&
              submitted.Options == host.toJobOptions(prepared)
      ensures stored.Type.Some?
      ensures submitted.PublishType == host.typeName(stored.Type.value)
      ensures submitted.DetectCloneSources <==> DetectsCloneSources(stored.Type.value)
    {
      var e := entity;
      if NullOrEmpty(e.RequestedBy) {
        e := e.(RequestedBy := Some(currentUser));
      }
      var jobType := host.entityJobType(e);
      e := e.(Type := Some(jobType));
      e := e.(TimeRequested := Some(requestedAt));
      e := e.(Metadata := if e.Metadata.None? then Some(map[]) else e.Metadata);
      var options := host.toJobOptions(e);
      submitted := Submission(options, host.typeName(jobType), jobType == SingleItem || jobType == Incremental);
      stored := e.(Id := Some(assignedId));
    }

    /** Exists: an entity without an id does not exist, whatever the job provider holds. */
    function Exists(entity: PublishingJobEntity): (r: bool)
      ensures NullOrEmpty(entity.Id) ==> !r
      ensures !NullOrEmpty(entity.Id) ==> r == host.jobExists(entity.Id.value)
    {
      if NullOrEmpty(entity.Id) then false else host.jobExists(entity.Id.value)
    }

    /** GetItem: fixes the default database as context when none is set, then looks
        the item up there. */
    method GetItem(itemId: string) returns (item: Option<ContentItem>)
      modifies this`sourceDatabase
      ensures sourceDatabase == Some(ItemDatabase(old(sourceDatabase)))
      ensures item == ItemIn(old(sourceDatabase), itemId)
    {
      if sourceDatabase.None? {
        sourceDatabase := Some(host.defaultSourceDatabase);
      }
      var database := sourceDatabase.value;
      if !host.databaseExists(database) {
        return None;
      }
      item := host.getItem(database, itemId);
    }

    /** GetTargetStatusTranslation: the displayed status of one target of `job`. */
    method GetTargetStatusTranslation(job: PublishJob, status: Option<ManifestStatus>) returns (targetStatus: string)
      ensures targetStatus == TranslateManifestOperationStatus(host.catalog, EffectiveStatus(job.Status, status))
    {
      targetStatus := TranslateManifestOperationStatus(host.catalog, ManifestOperationStatus.Error);
      if status.Some? {
        targetStatus := TranslateManifestOperationStatus(host.catalog, status.value.OperationStatus);
      } else if job.Status == PublishJobStatus.Queued {
        targetStatus := TranslateManifestOperationStatus(host.catalog, Ready);
      } else if job.Status == PublishJobStatus.Started {
        targetStatus := TranslateManifestOperationStatus(host.catalog, Running);
      }
    }

    /** The loop of ToEntity over the job's language codes. */
    method SelectLanguages(codes: seq<string>, allLanguages: seq<Language>) returns (selectedLanguages: seq<PublishingLanguage>)
      ensures selectedLanguages == SelectedLanguages(codes, allLanguages)
    {
      selectedLanguages := [];
      var i := 0;
      while i < |codes|
        invariant 0 <= i <= |codes|
        invariant selectedLanguages == SelectedLanguages(codes[..i], allLanguages)
      {
        var language := FindLanguage(allLanguages, codes[i]);
        if language.Some? {
          selectedLanguages := selectedLanguages + [PublishingLanguage(codes[i], language.value.DisplayName)];
        }
        assert codes[..i + 1][..i] == codes[..i];
        i := i + 1;
      }
      assert codes[..i] == codes;
    }

    /** The loop of ToEntity over the job's target names. */
    method SelectTargets(job: PublishJob, statuses: seq<ManifestStatus>, allTargets: seq<TargetItem>)
      returns (selectedTargets: seq<PublishingTarget>)
      ensures selectedTargets == SelectedTargets(job.Options.Targets, allTargets, statuses, job.Status, host.catalog)
    {
      var names := job.Options.Targets;
      selectedTargets := [];
      var k := 0;
      while k < |names|
        invariant 0 <= k <= |names|
        invariant selectedTargets == SelectedTargets(names[..k], allTargets, statuses, job.Status, host.catalog)
      {
        var target := FindTarget(allTargets, names[k]);
        if target.Some? {
          var status := FindManifestStatus(statuses, target.value.Id);
          var text := GetTargetStatusTranslation(job, status);
          selectedTargets := selectedTargets + [PublishingTarget(target.value.Id, target.value.DisplayName, text)];
        }
        assert names[..k + 1][..k] == names[..k];
        k := k + 1;
      }
      assert names[..k] == names;
    }

    /** ToEntity: walks the job's language codes and target names, keeping those
        that resolve, and fills in the other fields. */
    method ToEntity(job: PublishJob, statuses: seq<ManifestStatus>, allLanguages: seq<Language>,
                    allTargets: seq<TargetItem>) returns (e: PublishingJobEntity)
      modifies this`sourceDatabase
      ensures sourceDatabase == ContextAfter(old(sourceDatabase), [job])
      ensures e == JobEntityView(job, statuses, allLanguages, allTargets, ItemOf(old(sourceDatabase), job),
                                 host.jobTypeOf(job), host.clientStatus(job.Status), host.catalog)
    {
      var item: Option<ContentItem> := None;
      if job.Options.ItemId.Some? {
        item := GetItem(job.Options.ItemId.value);
        assert [job][0].Options.ItemId.Some?;
      }
      var publishJobType := host.jobTypeOf(job);

      var selectedLanguages := SelectLanguages(job.Options.Languages, allLanguages);
      var selectedTargets := SelectTargets(job, statuses, allTargets);

      e := PublishingJobEntity(
        Id := Some(job.Id),
        ItemId := Some(if job.Options.ItemId.Some? then job.Options.ItemId.value else ""),
        ItemName := Some(if item.Some? then item.value.Name else ""),
        StartPath := Some(if item.Some? then item.value.ContentPath else ""),
        ManifestIdList := Some(job.Manifests),
        Languages := Some(selectedLanguages),
        NumberOfItems := job.AffectedItems,
        RequestedBy := job.Options.User,
        Status := Some(TranslateJobStatus(host.catalog, host.clientStatus(job.Status))),
        StatusMessage := Some(if job.StatusMessage.Some? then job.StatusMessage.value else ""),
        Targets := Some(selectedTargets),
        TimeRequested := Some(job.Queued),
        TimeStarted := job.Started,
        TimeStopped := job.Stopped,
        Type := Some(publishJobType),
        TypeDisplayName := Some(TranslatePublishType(host.catalog, publishJobType)),
        IncludeDescendantItems := job.Options.Descendants,
        IncludeRelatedItems := job.Options.RelatedItems,
        SynchroniseWithTarget := true,
        SourceDatabase := job.Options.Source,
        Metadata := job.Options.Metadata);
    }

    /** GetActive: the active job's entity, or null exactly when the provider has no active job. */
    method GetActive() returns (active: Option<PublishingJobEntity>)
      modifies this`sourceDatabase
      ensures active.None? <==> host.activeJob.None?
      ensures active.Some? ==>
                active.value == EntityOf(old(sourceDatabase), host.activeJob.value,
                                         GetLanguages(host.activeJob.value.Options.Languages))
      ensures sourceDatabase == (if host.activeJob.Some? then ContextAfter(old(sourceDatabase), [host.activeJob.value])
                                 else old(sourceDatabase))
    {
      if host.activeJob.None? {
        return None;
      }
      var job := host.activeJob.value;
      var allLanguages := GetLanguages(job.Options.Languages);
      var allTargets := host.publishingTargets;
      var manifestResults := host.manifestStatuses(job.Manifests);
      var jobEntity := ToEntity(job, manifestResults, allLanguages, allTargets);
      active := Some(jobEntity);
    }

    /** The first loop of GetQueue and GetRecent: a dictionary from job id to that
        job's manifest status request, its keys kept in insertion order. */
    method RequestManifestStatuses(jobs: seq<PublishJob>) returns (r: Outcome<ManifestRequests>)
      ensures r.Ok? <==> DistinctIds(jobs)
      ensures r.Thrown? ==> r.fault.DuplicateKey?
      ensures r.Ok? ==> |r.value.Keys| == |jobs| &&
                        forall i :: 0 <= i < |jobs| ==>
                          r.value.Keys[i] == jobs[i].Id && r.value.Keys[i] in r.value.Entries &&
                          r.value.Entries[r.value.Keys[i]] == host.manifestStatuses(jobs[i].Manifests)
    {
      var keys: seq<string> := [];
      var manifestStatusTasks: map<string, seq<ManifestStatus>> := map[];
      var n := 0;
      while n < |jobs|
        invariant 0 <= n <= |jobs|
        invariant |keys| == n && forall i :: 0 <= i < n ==> keys[i] == jobs[i].Id
        invariant DistinctIds(jobs[..n])
        invariant forall id :: id in manifestStatusTasks <==> id in keys
        invariant forall i :: 0 <= i < n ==> manifestStatusTasks[keys[i]] == host.manifestStatuses(jobs[i].Manifests)
      {
        var job := jobs[n];
        if job.Id in manifestStatusTasks {
          var i :| 0 <= i < n && keys[i] == job.Id;
          assert jobs[i].Id == jobs[n].Id;
          return Thrown(DuplicateKey(job.Id));
        }
        keys := keys + [job.Id];
        manifestStatusTasks := manifestStatusTasks[job.Id := host.manifestStatuses(job.Manifests)];
        n := n + 1;
      }
      assert jobs[..n] == jobs;
      r := Ok(ManifestRequests(keys, manifestStatusTasks));
    }

    /** The part GetQueue and GetRecent share: one manifest status request per job,
        keyed by job id (a repeated id makes Dictionary.Add throw before anything
        is projected), then one entity per key in insertion order. */
    method AssembleEntities(jobs: seq<PublishJob>) returns (r: Outcome<seq<PublishingJobEntity>>)
      modifies this`sourceDatabase
      ensures r.Ok? <==> DistinctIds(jobs)
      ensures r.Thrown? ==> r.fault.DuplicateKey? && sourceDatabase == old(sourceDatabase)
      ensures r.Ok? ==> sourceDatabase == ContextAfter(old(sourceDatabase), jobs)
      ensures r.Ok? ==> |r.value| == |jobs| &&
                        forall i :: 0 <= i < |jobs| ==>
                          r.value[i] == EntityOf(old(sourceDatabase), jobs[i], GetLanguages(AllLanguageCodes(jobs)))
    {
      var allLanguages := GetLanguages(AllLanguageCodes(jobs));
      var allTargets := host.publishingTargets;

      var requests := RequestManifestStatuses(jobs);
      if requests.Thrown? {
        return Thrown(requests.fault);
      }
      var keys := requests.value.Keys;

      ghost var ctx := sourceDatabase;
      var jobEntities: seq<PublishingJobEntity> := [];
      var k := 0;
      while k < |keys|
        invariant 0 <= k <= |keys|
        invariant sourceDatabase == ContextAfter(ctx, jobs[..k])
        invariant |jobEntities| == k
        invariant forall i :: 0 <= i < k ==> jobEntities[i] == EntityOf(ctx, jobs[i], allLanguages)
      {
        ContextAfterStep(ctx, jobs, k);
        var entity := ProjectRequested(jobs, requests.value, k, allLanguages, allTargets);
        jobEntities := jobEntities + [entity];
        k := k + 1;
      }
      assert jobs[..k] == jobs;
      r := Ok(jobEntities);
    }

    /** One step of the second loop of GetQueue and GetRecent: the job whose id is
        the k-th key, projected with the manifest statuses requested for it. */
    method ProjectRequested(jobs: seq<PublishJob>, requests: ManifestRequests, k: nat,
                            allLanguages: seq<Language>, allTargets: seq<TargetItem>) returns (e: PublishingJobEntity)
      requires DistinctIds(jobs) && k < |jobs| && allTargets == host.publishingTargets
      requires |requests.Keys| == |jobs| && requests.Keys[k] == jobs[k].Id && requests.Keys[k] in requests.Entries
      requires requests.Entries[requests.Keys[k]] == host.manifestStatuses(jobs[k].Manifests)
      modifies this`sourceDatabase
      ensures sourceDatabase == ContextAfter(old(sourceDatabase), [jobs[k]])
      ensures e == EntityOf(old(sourceDatabase), jobs[k], allLanguages)
    {
      var key := requests.Keys[k];
      var found := FirstWhere(jobs, (j: PublishJob) => j.Id == key);
      FirstWithIdIsAt(jobs, k);
      var job := found.value;
      var manifestResults := requests.Entries[key];
      e := ToEntity(job, manifestResults, allLanguages, allTargets);
    }

    /** Looking up one more job's item moves the context as ContextAfter says. */
    lemma ContextAfterStep(ctx: Option<string>, jobs: seq<PublishJob>, k: nat)
      requires k < |jobs|
      ensures ContextAfter(ContextAfter(ctx, jobs[..k]), [jobs[k]]) == ContextAfter(ctx, jobs[..k + 1])
      ensures ItemOf(ContextAfter(ctx, jobs[..k]), jobs[k]) == ItemOf(ctx, jobs[k])
    {
      assert [jobs[k]][0] == jobs[k];
      assert jobs[..k + 1][k] == jobs[k];
      assert forall i :: 0 <= i < k ==> jobs[..k + 1][i] == jobs[..k][i];
    }

    /** GetQueue: one entity per queued job the provider returns, in its order. */
    method GetQueue(skip: int, take: int) returns (r: Outcome<seq<PublishingJobEntity>>)
      modifies this`sourceDatabase
      ensures var jobs := host.queue(skip, take);
              && (r.Ok? <==> DistinctIds(jobs))
              && (r.Ok? ==> |r.value| == |jobs| &&
                            forall i :: 0 <= i < |jobs| ==>
                              r.value[i] == EntityOf(old(sourceDatabase), jobs[i], GetLanguages(AllLanguageCodes(jobs))))
      ensures r.Ok? ==> sourceDatabase == ContextAfter(old(sourceDatabase), host.queue(skip, take))
      ensures r.Thrown? ==> sourceDatabase == old(sourceDatabase)
    {
      var jobs := host.queue(skip, take);
      r := AssembleEntities(jobs);
    }

    /** GetRecent: one entity per recent job the provider returns, in its order. */
    method GetRecent(skip: int, take: int) returns (r: Outcome<seq<PublishingJobEntity>>)
      modifies this`sourceDatabase
      ensures var jobs := host.recent(skip, take);
              && (r.Ok? <==> DistinctIds(jobs))
              && (r.Ok? ==> |r.value| == |jobs| &&
                            forall i :: 0 <= i < |jobs| ==>
                              r.value[i] == EntityOf(old(sourceDatabase), jobs[i], GetLanguages(AllLanguageCodes(jobs))))
      ensures r.Ok? ==> sourceDatabase == ContextAfter(old(sourceDatabase), host.recent(skip, take))
      ensures r.Thrown? ==> sourceDatabase == old(sourceDatabase)
    {
      var jobs := host.recent(skip, take);
      r := AssembleEntities(jobs);
    }

    /** GetAll: one entity per job the provider holds, in its order (no dictionary, so ids may repeat). */
    method GetAll() returns (entities: seq<PublishingJobEntity>)
      modifies this`sourceDatabase
      ensures sourceDatabase == ContextAfter(old(sourceDatabase), host.allJobs)
      ensures |entities| == |host.allJobs|
      ensures forall i :: 0 <= i < |entities| ==>
                entities[i] == EntityOf(old(sourceDatabase), host.allJobs[i], GetLanguages(AllLanguageCodes(host.allJobs)))
    {
      var jobs := host.allJobs;
      var allLanguages := GetLanguages(AllLanguageCodes(jobs));
      var allTargets := host.publishingTargets;
      ghost var ctx := sourceDatabase;
      entities := [];
      var k := 0;
      while k < |jobs|
        invariant 0 <= k <= |jobs|
        invariant sourceDatabase == ContextAfter(ctx, jobs[..k])
        invariant |entities| == k
        invariant forall i :: 0 <= i < k ==> entities[i] == EntityOf(ctx, jobs[i], allLanguages)
      {
        var manifestResults := host.manifestStatuses(jobs[k].Manifests);
        ContextAfterStep(ctx, jobs, k);
        var entity := ToEntity(jobs[k], manifestResults, allLanguages, allTargets);
        entities := entities + [entity];
        k := k + 1;
      }
      assert jobs[..k] == jobs;
    }

    /** FindById: rejects a null or empty id; a job the provider does not find is
        dereferenced all the same, which throws. */
    method FindById(id: Option<string>) returns (r: Outcome<PublishingJobEntity>)
      modifies this`sourceDatabase
      ensures NullOrEmpty(id) ==> r == Thrown(ArgumentEmpty("id"))
      ensures !NullOrEmpty(id) && host.getJob(id.value).None? ==> r == Thrown(NullReference)
      ensures !NullOrEmpty(id) && host.getJob(id.value).Some? ==>
                var job := host.getJob(id.value).value;
                r == Ok(EntityOf(old(sourceDatabase), job, GetLanguages(job.Options.Languages)))
      ensures r.Thrown? ==> sourceDatabase == old(sourceDatabase)
      ensures r.Ok? ==> sourceDatabase == ContextAfter(old(sourceDatabase), [host.getJob(id.value).value])
    {
      if NullOrEmpty(id) {
        return Thrown(ArgumentEmpty("id"));
      }
      var job := host.getJob(id.value);
      if job.None? {
        return Thrown(NullReference);
      }
      var allLanguages := GetLanguages(job.value.Options.Languages);
      var allTargets := host.publishingTargets;
      var manifestResults := host.manifestStatuses(job.value.Manifests);
      var entity := ToEntity(job.value, manifestResults, allLanguages, allTargets);
      r := Ok(entity);
    }
  }
}
