# Publishing jobs client service: a verified model

This project models the request logic of a hotfix to a content-management
platform's publishing client service: the repository that turns the job queue's
publish jobs into the view entities the publishing dashboard shows, and the
controller behind the dashboard's endpoints (start a publish, re-publish a job,
list the active, queued and recent jobs, and report the publishing service's
health).

The host platform owns everything else: the job queue and its provider, the
manifest provider, the content databases, the language and target directories,
the message catalog, and the user and role services. Each of these is a
parameter of the model, and the model proves what the modelled code does with
whatever they answer.

- `common.dfy` (module `Common`): nullable values, the exceptions the code
  raises itself, LINQ's `FirstOrDefault` (`FirstWhere`) and in-order
  filtering, and case-insensitive comparison.
- `model.dfy` (module `PublishingModel`): jobs, manifest statuses, languages,
  targets, items, the view entity, and the message-catalog keys.
- `translation.dfy` (module `StatusTranslation`): the three enum-to-message-key
  tables, and the rule that picks a target's displayed status.
- `projection.dfy` (module `JobProjection`): what `ToEntity` builds from a job,
  as specification functions with the lemmas about them.
- `repository.dfy` (module `Repository`): class `PublishingJobRepository`. Its
  one mutable field is the database context that item lookups use. Its methods
  carry the loops of the source and are proved against the projection.
- `controller.dfy` (module `JobController`): the controller's decisions as
  functions over a view of the repository, plus the two imperative parts,
  `CheckStatus` and `Queued`.

One observation from the source. `PublishingJobRepository.FindById`
dereferences the job that the provider returns without checking it for null.
So with this repository, a re-publish of an unknown job throws instead of
reaching the controller's not-found branch. `FindById` models this as
`Thrown(NullReference)`. The controller is modelled against any repository
(the `IPublishRepository` interface), so its not-found branch is kept.

## Model

| member | source | states |
|---|---|---|
| `Common.FirstWhere` | src/Sitecore.Support.33726/Publishing/Service/Client/Services/Data/PublishingJobRepository.cs:293 | The lookup finds nothing exactly when no element matches. Otherwise it returns the first element that matches. |
| `StatusTranslation.PublishTypeKey` | src/Sitecore.Support.33726/Publishing/Service/Client/Services/Data/PublishingJobRepository.cs:371-393 | Full, Incremental, SingleItem and Republish each read their own key: the republish-all, site-publish, item-publish and full-republish labels. |
| `StatusTranslation.JobStatusKey` | src/Sitecore.Support.33726/Publishing/Service/Client/Services/Data/PublishingJobRepository.cs:395-425 | The table as written, stated both ways: Cancelled reads the republish-all label, CompleteWithErrors the item-publish label, and the other four states their status texts. |
| `StatusTranslation.ManifestStatusKey` | src/Sitecore.Support.33726/Publishing/Service/Client/Services/Data/PublishingJobRepository.cs:427-449 | The table covers all four manifest statuses, stated both ways: Complete reads the complete text, Error the failed text, Ready the queued text and Running the running text. |
| `StatusTranslation.ManifestStatusTextsDistinct` | src/Sitecore.Support.33726/Publishing/Service/Client/Services/Data/PublishingJobRepository.cs:427-449 | If the catalog gives every key a different text, two manifest statuses show the same text only when they are the same status. |
| `StatusTranslation.JobStatusTextsAsWritten` | src/Sitecore.Support.33726/Publishing/Service/Client/Services/Data/PublishingJobRepository.cs:395-425 | For every catalog, a Cancelled job shows the Full publish-type label and a CompleteWithErrors job the SingleItem label. Complete, Failed and Queued show the texts of the matching manifest statuses. |
| `StatusTranslation.EffectiveStatus` | src/Sitecore.Support.33726/Publishing/Service/Client/Services/Data/PublishingJobRepository.cs:351-369 | A manifest status record decides the status. Without one: Ready iff the job is Queued, Running iff it is Started, Error in every other state, and never Complete. |
| `StatusTranslation.ManifestRecordTakesPrecedence` | src/Sitecore.Support.33726/Publishing/Service/Client/Services/Data/PublishingJobRepository.cs:355-358 | When a status record exists, the displayed text is the record's text, whatever the job state. |
| `JobProjection.SelectedLanguagesAreKnownCodes` | src/Sitecore.Support.33726/Publishing/Service/Client/Services/Data/PublishingJobRepository.cs:289-303 | The language lines are exactly the job's codes that name a known language, in the job's order, once per occurrence. Each line carries the display name of the first language with that name. |
| `JobProjection.SelectedTargetsAreKnownNames` | src/Sitecore.Support.33726/Publishing/Service/Client/Services/Data/PublishingJobRepository.cs:305-323 | The target lines are exactly the job's target names that name a known target, in order. Each is the line of the first target with that name, and its status comes from that target's first status record. |
| `JobProjection.SelectedTargetsAppend` | src/Sitecore.Support.33726/Publishing/Service/Client/Services/Data/PublishingJobRepository.cs:307-323 | The target lines of two concatenated name lists are the lines of the first list followed by those of the second. |
| `JobProjection.UnknownTargetDropsOnlyItself` | src/Sitecore.Support.33726/Publishing/Service/Client/Services/Data/PublishingJobRepository.cs:309-311 | A target name that no longer resolves is dropped. The lines of the names around it are unchanged. |
| `JobProjection.TargetLinesIgnoreStatuses` | src/Sitecore.Support.33726/Publishing/Service/Client/Services/Data/PublishingJobRepository.cs:313-321 | Which targets are listed, with which ids and names, depends neither on the status records nor on the job state. For the same job state, a line is unchanged when its own target's first status record is the same. |
| `JobProjection.EntityViewDefaults` | src/Sitecore.Support.33726/Publishing/Service/Client/Services/Data/PublishingJobRepository.cs:325-348 | The item id is "" without an item. Name and start path are "" when the item lookup fails. The status message is "" without a message. Synchronisation is always on, and the list fields are never null. |
| `Repository.FirstWithIdIsAt` | src/Sitecore.Support.33726/Publishing/Service/Client/Services/Data/PublishingJobRepository.cs:118-121 | When ids are distinct, looking up a dictionary key among the jobs finds the job that was added under it. |
| `Repository.PreparedEntityNormalises` | src/Sitecore.Support.33726/Publishing/Service/Client/Services/Data/PublishingJobRepository.cs:164-171 | The requester is replaced by the current user exactly when it is null or empty. Metadata becomes an empty map exactly when it is null. Type and request time are set, and nothing else changes. |
| `Repository.PreparedEntityStable` | src/Sitecore.Support.33726/Publishing/Service/Client/Services/Data/PublishingJobRepository.cs:164-171 | Completing an entity a second time keeps its metadata. It keeps its requester too, unless the first pass set an empty user name. |
| `Repository.PublishingJobRepository.Add` | src/Sitecore.Support.33726/Publishing/Service/Client/Services/Data/PublishingJobRepository.cs:159-192 | The stored entity is the completed entity with the provider's id. The submitted options are the completed entity's, with its type's display name. Clone sources are detected iff the type is SingleItem or Incremental. |
| `Repository.PublishingJobRepository.Exists` | src/Sitecore.Support.33726/Publishing/Service/Client/Services/Data/PublishingJobRepository.cs:203-218 | A null or empty id gives false whatever the provider holds. Otherwise the answer is the provider's. |
| `Repository.PublishingJobRepository.SetDatabaseContext` | src/Sitecore.Support.33726/Publishing/Service/Client/Services/Data/PublishingJobRepository.cs:71-76 | A null or empty name throws and leaves the context as it was. Otherwise the name becomes the context. |
| `Repository.PublishingJobRepository.GetItem` | src/Sitecore.Support.33726/Publishing/Service/Client/Services/Data/PublishingJobRepository.cs:451-466 | When no context is set, the default database becomes the context. The item is looked up there, and none is found when that database is missing. |
| `Repository.PublishingJobRepository.GetLanguages` | src/Sitecore.Support.33726/Publishing/Service/Client/Services/Data/PublishingJobRepository.cs:468-478 | An empty list of codes resolves to no languages. |
| `Repository.PublishingJobRepository.GetTargetStatusTranslation` | src/Sitecore.Support.33726/Publishing/Service/Client/Services/Data/PublishingJobRepository.cs:351-369 | The text of the status chosen by the precedence rule (`EffectiveStatus`). |
| `Repository.PublishingJobRepository.SelectLanguages` | src/Sitecore.Support.33726/Publishing/Service/Client/Services/Data/PublishingJobRepository.cs:289-303 | The language loop of ToEntity builds exactly `SelectedLanguages`. |
| `Repository.PublishingJobRepository.SelectTargets` | src/Sitecore.Support.33726/Publishing/Service/Client/Services/Data/PublishingJobRepository.cs:305-323 | The target loop of ToEntity builds exactly `SelectedTargets`. |
| `Repository.PublishingJobRepository.ToEntity` | src/Sitecore.Support.33726/Publishing/Service/Client/Services/Data/PublishingJobRepository.cs:283-349 | The entity is `JobEntityView` of the job, using the item found in the database context. The context is fixed to the default only when the job has an item and no context was set. |
| `Repository.PublishingJobRepository.GetActive` | src/Sitecore.Support.33726/Publishing/Service/Client/Services/Data/PublishingJobRepository.cs:78-97 | The result is null exactly when the provider has no active job. Otherwise it is that job's entity. |
| `Repository.PublishingJobRepository.RequestManifestStatuses` | src/Sitecore.Support.33726/Publishing/Service/Client/Services/Data/PublishingJobRepository.cs:107-112 | Building the dictionary succeeds exactly when job ids are distinct, with one key per job in order. A repeated id throws a duplicate-key exception. |
| `Repository.PublishingJobRepository.AssembleEntities` | src/Sitecore.Support.33726/Publishing/Service/Client/Services/Data/PublishingJobRepository.cs:103-126 | With distinct ids, one entity per job in the provider's order. Otherwise it throws and the context is unchanged. |
| `Repository.PublishingJobRepository.GetQueue` | src/Sitecore.Support.33726/Publishing/Service/Client/Services/Data/PublishingJobRepository.cs:99-127 | One entity per queued job of the requested page, in order. It throws exactly when two jobs share an id, and then leaves the context unchanged. Otherwise the context is the one the item lookups of those jobs leave. |
| `Repository.PublishingJobRepository.GetRecent` | src/Sitecore.Support.33726/Publishing/Service/Client/Services/Data/PublishingJobRepository.cs:129-157 | One entity per recent job of the requested page, in order. It throws exactly when two jobs share an id, and then leaves the context unchanged. Otherwise the context is the one the item lookups of those jobs leave. |
| `Repository.PublishingJobRepository.GetAll` | src/Sitecore.Support.33726/Publishing/Service/Client/Services/Data/PublishingJobRepository.cs:245-273 | One entity per job the provider holds, in order. |
| `Repository.PublishingJobRepository.FindById` | src/Sitecore.Support.33726/Publishing/Service/Client/Services/Data/PublishingJobRepository.cs:220-243 | A null or empty id throws an argument exception. An id the provider does not find throws a null reference. In both cases the context is unchanged. Otherwise the result is that job's entity, and the context is the one its item lookup leaves. |
| `JobController.HealthCheckReportsErrorIffDown` | src/Sitecore.Support.33726/Publishing/Service/Client/Services/Controllers/SupportPublishingJobController.cs:295-315 | The health check adds one message iff the queue reports Error, and none otherwise. The error test on its messages holds iff the queue is down. |
| `JobController.CheckStatus` | src/Sitecore.Support.33726/Publishing/Service/Client/Services/Controllers/SupportPublishingJobController.cs:300-315 | The caller's list becomes its old contents followed by the health check's messages. |
| `JobController.UserCanRePublishByRequester` | src/Sitecore.Support.33726/Publishing/Service/Client/Services/Controllers/SupportPublishingJobController.cs:317-325 | An administrator may always re-publish. Anyone else may iff the job has a requester whose name upper-cases to the same string as theirs. |
| `JobController.UserCanRePublishIgnoresCase` | src/Sitecore.Support.33726/Publishing/Service/Client/Services/Controllers/SupportPublishingJobController.cs:322 | Two caller names that differ only in letter case get the same decision. |
| `JobController.RequesterMatchesCallerOfOtherCase` | src/Sitecore.Support.33726/Publishing/Service/Client/Services/Controllers/SupportPublishingJobController.cs:322 | Requester "Alice" and caller "alice": the caller may re-publish. |
| `JobController.RePublishedJobCopiesDescriptionOnly` | src/Sitecore.Support.33726/Publishing/Service/Client/Services/Controllers/SupportPublishingJobController.cs:142-154 | The new job copies metadata, item, flags, languages, source, synchronisation and targets, and is requested by the current user. Id, manifests, status and all three times are null, and nothing else of the prior job affects it. |
| `JobController.RePublishedJobKeepsCallerOnAdd` | src/Sitecore.Support.33726/Publishing/Service/Client/Services/Controllers/SupportPublishingJobController.cs:150 | When the repository completes the new job, a non-empty current user stays its requester. All eight copied fields stay unchanged, the metadata whenever the prior job had some. |
| `JobController.RePublishAgreesWithCanRePublish` | src/Sitecore.Support.33726/Publishing/Service/Client/Services/Controllers/SupportPublishingJobController.cs:128-179 | RePublish creates a job iff CanRePublish holds. It answers not-found iff the job is missing. Otherwise it refuses with BadRequest and the fixed reason phrase. |
| `JobController.RePublishRefusedCreatesNothing` | src/Sitecore.Support.33726/Publishing/Service/Client/Services/Controllers/SupportPublishingJobController.cs:162-165 | When re-publishing is not allowed, the response does not depend on entity creation, and it is not a creation. |
| `JobController.ItemPublishRequiresItemId` | src/Sitecore.Support.33726/Publishing/Service/Client/Services/Controllers/SupportPublishingJobController.cs:105-126 | ItemPublish throws on a null item id, and only then. Otherwise it answers what FullPublish answers, and FullPublish has no such requirement. |
| `JobController.ActiveList` | src/Sitecore.Support.33726/Publishing/Service/Client/Services/Controllers/SupportPublishingJobController.cs:217 | The active list holds at most one job. It is empty iff there is no active job, and otherwise holds that job. |
| `JobController.AllWhenServiceDown` | src/Sitecore.Support.33726/Publishing/Service/Client/Services/Controllers/SupportPublishingJobController.cs:184-197 | With the queue down, All returns three empty lists and one error message. The answer is the same for every repository and every database name. |
| `JobController.AllWhenServiceUp` | src/Sitecore.Support.33726/Publishing/Service/Client/Services/Controllers/SupportPublishingJobController.cs:199-220 | With the queue available, All throws iff the database name is null or empty. Otherwise it returns no messages, the repository's active job as a list of at most one, and the first pages of 10 queued and 10 recent jobs. |
| `JobController.ActiveAndRecentIgnoreHealth` | src/Sitecore.Support.33726/Publishing/Service/Client/Services/Controllers/SupportPublishingJobController.cs:223-280 | Active and Recent return the repository's jobs even when the queue is down, and then also carry the error message. |
| `JobController.Queued` | src/Sitecore.Support.33726/Publishing/Service/Client/Services/Controllers/SupportPublishingJobController.cs:240-263 | Active and Recent are always empty. Queued is empty when the queue is down, and otherwise the repository's first `top` queued jobs. The messages are the health check's. |
| `JobController.Status` | src/Sitecore.Support.33726/Publishing/Service/Client/Services/Controllers/SupportPublishingJobController.cs:282-293 | Healthy iff there are no messages, which holds iff the queue is not down. |
| `JobController.UserCanRePublish` | src/Sitecore.Support.33726/Publishing/Service/Client/Services/Controllers/SupportPublishingJobController.cs:317-325 | Contract in `JobController.UserCanRePublishByRequester` and `JobController.UserCanRePublishIgnoresCase`: administrators always, others iff the requester equals them up to case. |
| `JobController.CanRePublish` | src/Sitecore.Support.33726/Publishing/Service/Client/Services/Controllers/SupportPublishingJobController.cs:168-179 | Contract in `JobController.RePublishAgreesWithCanRePublish`: false for a job the repository does not find, otherwise the caller's right to re-publish. RePublish creates a job exactly when it holds. |
| `JobController.RePublishedJob` | src/Sitecore.Support.33726/Publishing/Service/Client/Services/Controllers/SupportPublishingJobController.cs:142-154 | Contract in `JobController.RePublishedJobCopiesDescriptionOnly` and `JobController.RePublishedJobKeepsCallerOnAdd`: copies the eight description fields, with the current user as requester and nothing else set. |
| `JobController.RePublish` | src/Sitecore.Support.33726/Publishing/Service/Client/Services/Controllers/SupportPublishingJobController.cs:128-166 | Contract in `JobController.RePublishAgreesWithCanRePublish` and `JobController.RePublishRefusedCreatesNothing`: not found, refused with the fixed reason, or the creation of the re-published job. |
| `JobController.FullPublish` | src/Sitecore.Support.33726/Publishing/Service/Client/Services/Controllers/SupportPublishingJobController.cs:105-114 | Contract in `JobController.ItemPublishRequiresItemId`: accepts any entity, and ItemPublish with an item id answers the same. |
| `JobController.ItemPublish` | src/Sitecore.Support.33726/Publishing/Service/Client/Services/Controllers/SupportPublishingJobController.cs:116-126 | Contract in `JobController.ItemPublishRequiresItemId`: throws an argument-null exception iff the item id is null, otherwise answers as FullPublish. |
| `JobController.All` | src/Sitecore.Support.33726/Publishing/Service/Client/Services/Controllers/SupportPublishingJobController.cs:181-221 | Contract in `JobController.AllWhenServiceDown` and `JobController.AllWhenServiceUp`. |
| `JobController.Active` | src/Sitecore.Support.33726/Publishing/Service/Client/Services/Controllers/SupportPublishingJobController.cs:223-238 | Contract in `JobController.ActiveAndRecentIgnoreHealth`: the repository's active job whatever the queue state, no queued jobs, and no recent list. |
| `JobController.Recent` | src/Sitecore.Support.33726/Publishing/Service/Client/Services/Controllers/SupportPublishingJobController.cs:265-280 | Contract in `JobController.ActiveAndRecentIgnoreHealth`: the repository's first `top` recent jobs whatever the queue state, no active jobs, and no queued list. |
| `JobController.ServiceStatusIsError` | src/Sitecore.Support.33726/Publishing/Service/Client/Services/Controllers/SupportPublishingJobController.cs:295-298 | Contract in `JobController.HealthCheckReportsErrorIffDown`: holds on the health check's messages iff the queue is down. |
| `JobController.StatusMessages` | src/Sitecore.Support.33726/Publishing/Service/Client/Services/Controllers/SupportPublishingJobController.cs:300-315 | Contract in `JobController.HealthCheckReportsErrorIffDown` and `JobController.CheckStatus`: one error message with the service-down text iff the queue reports Error. |
| `JobProjection.JobEntityView` | src/Sitecore.Support.33726/Publishing/Service/Client/Services/Data/PublishingJobRepository.cs:325-348 | Contract in `JobProjection.EntityViewDefaults`, with its language and target lists in `JobProjection.SelectedLanguagesAreKnownCodes` and `JobProjection.SelectedTargetsAreKnownNames`; `Repository.PublishingJobRepository.ToEntity` is proved to build it. |
| `JobProjection.SelectedLanguages` | src/Sitecore.Support.33726/Publishing/Service/Client/Services/Data/PublishingJobRepository.cs:289-303 | Contract in `JobProjection.SelectedLanguagesAreKnownCodes`: the in-order filter of the known codes. |
| `JobProjection.SelectedTargets` | src/Sitecore.Support.33726/Publishing/Service/Client/Services/Data/PublishingJobRepository.cs:305-323 | Contract in `JobProjection.SelectedTargetsAreKnownNames`, `JobProjection.SelectedTargetsAppend` and `JobProjection.UnknownTargetDropsOnlyItself`: the in-order filter of the known names. |
| `Repository.PreparedEntity` | src/Sitecore.Support.33726/Publishing/Service/Client/Services/Data/PublishingJobRepository.cs:164-171 | Contract in `Repository.PreparedEntityNormalises` and `Repository.PreparedEntityStable`. |
| `StatusTranslation.TranslatePublishType` | src/Sitecore.Support.33726/Publishing/Service/Client/Services/Data/PublishingJobRepository.cs:371-393 | Contract in `StatusTranslation.PublishTypeKey`: the catalog text of the type's own key. |
| `StatusTranslation.TranslateJobStatus` | src/Sitecore.Support.33726/Publishing/Service/Client/Services/Data/PublishingJobRepository.cs:395-425 | Contract in `StatusTranslation.JobStatusKey` and `StatusTranslation.JobStatusTextsAsWritten`. |
| `StatusTranslation.TranslateManifestOperationStatus` | src/Sitecore.Support.33726/Publishing/Service/Client/Services/Data/PublishingJobRepository.cs:427-449 | Contract in `StatusTranslation.ManifestStatusKey` and `StatusTranslation.ManifestStatusTextsDistinct`. |

## Left out

- Host collaborators are parameters with no behaviour of their own. This covers the job and manifest providers, the database factory, settings, the message catalog, the language and target directories, and the user role and profile services. It also covers `CalculateJobType`, `ToJob`, `ToPublishingJobStatus` and the base class's `CreateEntity`. Their bodies are not part of this model.
- Concurrency: `Task.Run(...).Wait()`, `Task.WhenAll` and `ConfigureAwait` are modelled as sequential calls. Results keep the provider's job order.
- Exceptions thrown by collaborators are not modelled. This includes a failed provider call, a null default database, a malformed Guid, and a faulted repository task seen by the controller.
- Guid parsing and formatting, and date formatting: ids and times are kept as opaque strings in their formatted form. `DateTime.UtcNow` becomes the `requestedAt` input of `Add`.
- HTTP plumbing (response objects, JSON content, route registration in `RegisterWebAPIRoutes.cs`) becomes the `Response` and `PublishingJobData` datatypes. Attributes such as `[Authorize]` and `[DenyUnauthorisedRoles]` are framework behaviour and are not modelled.
- Constructor null checks and default-wiring constructors are dependency plumbing, and so is the null check on the entity in `Add`, `Delete`, `Exists` and `Update`.
- `Delete` and `Update` only forward to the job provider. They contain no decision logic.
- The bucket settings that `Add` reads and forwards (lines 177-183) are not modelled.
- `Repository.PublishingJobRepository.Add`: in the source, `Add` changes the caller's entity in place. Here it returns the updated entity, so aliasing with the caller's object is not captured.
- `Repository.PublishingJobRepository.AssembleEntities`: assumes the dictionary lists its keys in insertion order. This holds for `Dictionary` when nothing is removed, but is not guaranteed by its documentation.
- `JobController.UserCanRePublishByRequester`: the model compares names position by position and folds only ASCII letters, so names of different lengths never match. The source compares under the invariant culture, which also folds non-ASCII letters, ignores ignorable code points such as a soft hyphen (U+00AD), and treats a composed letter ("Å") as equal to its decomposed form ("A" followed by U+030A). Names that differ only in these ways may re-publish each other's jobs in the source but not in the model.
- `JobController.CheckStatus`: the message catalog is the one for the client language. The fallback from the user's client language to the context language is not modelled.
- `JobController.RePublishAgreesWithCanRePublish`: `CanRePublish` and `RePublish` each ask the repository separately. The model assumes both calls get the same answer.
- The `MessageType.Error` display name is a constant of the model. Only equality with it matters. Queue states other than Error are not distinguished.
- Paging (`skip`, `take`) is the provider's job. The model does not state that a page holds at most `take` jobs.
- `JobController.RePublishAgreesWithCanRePublish`: the response of the base class's `CreateEntity` is modelled as always a creation. Whatever that class answers otherwise, such as a validation failure, is not modelled.
- `JobController.Queued` and `JobController.Recent` take `top` as an explicit argument. The source's default of `DefaultPageSize` (10) is applied by the web framework when a request leaves `top` out.
- `JobController.RePublishedJob`: starts from a blank entity with every property null, 0 or false. This assumes the parameterless `PublishingJobEntity` constructor sets nothing. That class is not part of this model.
