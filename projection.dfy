// The projection of a queued job onto the client's view entity
// (PublishingJobRepository.ToEntity): the language and target lines it keeps,
// the status each target line shows, and the defaults of the other fields.
module JobProjection {
  import opened Common
  import opened PublishingModel
  import opened StatusTranslation

  /** The first known language named `code` (allLanguages.FirstOrDefault(l => l.Name == code)). */
  function FindLanguage(allLanguages: seq<Language>, code: string): Option<Language> {
    FirstWhere(allLanguages, (l: Language) => l.Name == code)
  }

  predicate LanguageKnown(allLanguages: seq<Language>, code: string) {
    FindLanguage(allLanguages, code).Some?
  }

  /** The first known target named `name` (allTargets.FirstOrDefault(t => t.Name == name)). */
  function FindTarget(allTargets: seq<TargetItem>, name: string): Option<TargetItem> {
    FirstWhere(allTargets, (t: TargetItem) => t.Name == name)
  }

  predicate TargetKnown(allTargets: seq<TargetItem>, name: string) {
    FindTarget(allTargets, name).Some?
  }

  /** The first manifest status record of the target with id `targetId`. */
  function FindManifestStatus(statuses: seq<ManifestStatus>, targetId: string): Option<ManifestStatus> {
    FirstWhere(statuses, (s: ManifestStatus) => s.TargetId == targetId)
  }

  /** The language lines of the view: one per code of the job that names a known
      language, in the job's order, built while walking the codes. */
  function SelectedLanguages(codes: seq<string>, allLanguages: seq<Language>): seq<PublishingLanguage> {
    if |codes| == 0 then []
    else
      var code := codes[|codes| - 1];
      SelectedLanguages(codes[..|codes| - 1], allLanguages) +
      match FindLanguage(allLanguages, code)
      case Some(language) => [PublishingLanguage(code, language.DisplayName)]
      case None => []
  }

  /** The view line of a known target: its id and display name, and its status text. */
  function TargetLine(catalog: Catalog, jobStatus: PublishJobStatus, statuses: seq<ManifestStatus>, target: TargetItem): PublishingTarget {
    PublishingTarget(target.Id, target.DisplayName,
                     TargetStatusText(catalog, jobStatus, FindManifestStatus(statuses, target.Id)))
  }

  /** The target lines of the view: one per target name of the job that names a
      known target, in the job's order. */
  function SelectedTargets(names: seq<string>, allTargets: seq<TargetItem>, statuses: seq<ManifestStatus>,
                           jobStatus: PublishJobStatus, catalog: Catalog): seq<PublishingTarget>
  {
    if |names| == 0 then []
    else
      SelectedTargets(names[..|names| - 1], allTargets, statuses, jobStatus, catalog) +
      match FindTarget(allTargets, names[|names| - 1])
      case Some(target) => [TargetLine(catalog, jobStatus, statuses, target)]
      case None => []
  }

  /** The language lines are exactly the job's codes that name a known language, in
      the job's order and once per occurrence, each with the display name of the
      first language of that name; unknown codes are dropped and nothing fails. */
  lemma {:induction false} SelectedLanguagesAreKnownCodes(codes: seq<string>, allLanguages: seq<Language>)
    ensures var lines := SelectedLanguages(codes, allLanguages);
            var kept := Filter(codes, c => LanguageKnown(allLanguages, c));
            |lines| == |kept| &&
            forall k :: 0 <= k < |lines| ==>
              lines[k].Code == kept[k] &&
              LanguageKnown(allLanguages, kept[k]) &&
              lines[k].DisplayName == FindLanguage(allLanguages, kept[k]).value.DisplayName
  {
    if |codes| > 0 {
      var init := codes[..|codes| - 1];
      assert codes == init + [codes[|codes| - 1]];
      SelectedLanguagesAreKnownCodes(init, allLanguages);
    }
  }

  /** The target lines are exactly the job's target names that name a known target,
      in the job's order, each the line of the first target of that name. */
  lemma {:induction false} SelectedTargetsAreKnownNames(names: seq<string>, allTargets: seq<TargetItem>,
                                                       statuses: seq<ManifestStatus>, jobStatus: PublishJobStatus,
                                                       catalog: Catalog)
    ensures var lines := SelectedTargets(names, allTargets, statuses, jobStatus, catalog);
            var kept := Filter(names, n => TargetKnown(allTargets, n));
            |lines| == |kept| &&
            forall k :: 0 <= k < |lines| ==>
              TargetKnown(allTargets, kept[k]) &&
              lines[k] == TargetLine(catalog, jobStatus, statuses, FindTarget(allTargets, kept[k]).value)
  {
    if |names| > 0 {
      var init := names[..|names| - 1];
      assert names == init + [names[|names| - 1]];
      SelectedTargetsAreKnownNames(init, allTargets, statuses, jobStatus, catalog);
    }
  }

  /** The target lines of a concatenation of names are the lines of each part. */
  lemma {:induction false} SelectedTargetsAppend(a: seq<string>, b: seq<string>, allTargets: seq<TargetItem>,
                                                statuses: seq<ManifestStatus>, jobStatus: PublishJobStatus,
                                                catalog: Catalog)
    ensures SelectedTargets(a + b, allTargets, statuses, jobStatus, catalog) ==
            SelectedTargets(a, allTargets, statuses, jobStatus, catalog) +
            SelectedTargets(b, allTargets, statuses, jobStatus, catalog)
  {
    if |b| > 0 {
      var init := b[..|b| - 1];
      var last := b[|b| - 1];
      var tail := match FindTarget(allTargets, last)
                  case Some(target) => [TargetLine(catalog, jobStatus, statuses, target)]
                  case None => [];
      assert (a + b)[..|a + b| - 1] == a + init;
      assert (a + b)[|a + b| - 1] == last;
      assert SelectedTargets(a + b, allTargets, statuses, jobStatus, catalog) ==
             SelectedTargets(a + init, allTargets, statuses, jobStatus, catalog) + tail;
      assert SelectedTargets(b, allTargets, statuses, jobStatus, catalog) ==
             SelectedTargets(init, allTargets, statuses, jobStatus, catalog) + tail;
      SelectedTargetsAppend(a, init, allTargets, statuses, jobStatus, catalog);
    } else {
      assert a + b == a;
    }
  }

  /** A target name that no longer names a known target is dropped without
      disturbing the lines of the names around it. */
  lemma UnknownTargetDropsOnlyItself(a: seq<string>, name: string, b: seq<string>, allTargets: seq<TargetItem>,
                                     statuses: seq<ManifestStatus>, jobStatus: PublishJobStatus, catalog: Catalog)
    requires !TargetKnown(allTargets, name)
    ensures SelectedTargets(a + [name] + b, allTargets, statuses, jobStatus, catalog) ==
            SelectedTargets(a + b, allTargets, statuses, jobStatus, catalog)
  {
    SelectedTargetsAppend(a + [name], b, allTargets, statuses, jobStatus, catalog);
    SelectedTargetsAppend(a, [name], allTargets, statuses, jobStatus, catalog);
    SelectedTargetsAppend(a, b, allTargets, statuses, jobStatus, catalog);
    assert SelectedTargets([name], allTargets, statuses, jobStatus, catalog) == [] by {
      assert [name][..0] == [];
    }
  }

  /** Which targets are listed, and with which id and name, does not depend on the
      manifest status records or on the job state: a missing status record only
      changes the status text of its own line. */
  lemma TargetLinesIgnoreStatuses(names: seq<string>, allTargets: seq<TargetItem>,
                                  statuses1: seq<ManifestStatus>, jobStatus1: PublishJobStatus,
                                  statuses2: seq<ManifestStatus>, jobStatus2: PublishJobStatus,
                                  catalog: Catalog)
    ensures var lines1 := SelectedTargets(names, allTargets, statuses1, jobStatus1, catalog);
            var lines2 := SelectedTargets(names, allTargets, statuses2, jobStatus2, catalog);
            |lines1| == |lines2| &&
            (forall k :: 0 <= k < |lines1| ==> lines1[k].Id == lines2[k].Id && lines1[k].Name == lines2[k].Name) &&
            (forall k :: 0 <= k < |lines1| && jobStatus1 == jobStatus2 &&
                         FindManifestStatus(statuses1, lines1[k].Id) == FindManifestStatus(statuses2, lines1[k].Id) ==>
                           lines1[k] == lines2[k])
  {
    SelectedTargetsAreKnownNames(names, allTargets, statuses1, jobStatus1, catalog);
    SelectedTargetsAreKnownNames(names, allTargets, statuses2, jobStatus2, catalog);
  }

  /** The entity ToEntity builds from a job, its manifest status records, the
      resolved languages and targets, the item lookup's result, and the results
      of the host's job-type computation and status conversion. */
  function JobEntityView(job: PublishJob, statuses: seq<ManifestStatus>, allLanguages: seq<Language>,
                         allTargets: seq<TargetItem>, item: Option<ContentItem>, jobType: PublishJobType,
                         clientStatus: PublishingJobStatus, catalog: Catalog): PublishingJobEntity
  {
    PublishingJobEntity(
      Id := Some(job.Id),
      ItemId := Some(if job.Options.ItemId.Some? then job.Options.ItemId.value else ""),
      ItemName := Some(if item.Some? then item.value.Name else ""),
      StartPath := Some(if item.Some? then item.value.ContentPath else ""),
      ManifestIdList := Some(job.Manifests),
      Languages := Some(SelectedLanguages(job.Options.Languages, allLanguages)),
      NumberOfItems := job.AffectedItems,
      RequestedBy := job.Options.User,
      Status := Some(TranslateJobStatus(catalog, clientStatus)),
      StatusMessage := Some(if job.StatusMessage.Some? then job.StatusMessage.value else ""),
      Targets := Some(SelectedTargets(job.Options.Targets, allTargets, statuses, job.Status, catalog)),
      TimeRequested := Some(job.Queued),
      TimeStarted := job.Started,
      TimeStopped := job.Stopped,
      Type := Some(jobType),
      TypeDisplayName := Some(TranslatePublishType(catalog, jobType)),
      IncludeDescendantItems := job.Options.Descendants,
      IncludeRelatedItems := job.Options.RelatedItems,
      SynchroniseWithTarget := true,
      SourceDatabase := job.Options.Source,
      Metadata := job.Options.Metadata)
  }

  /** The view never carries a null where the job lacks a value: a job without an
      item shows an empty item id, a failed item lookup an empty name and path, a
      job without a message an empty message; synchronisation is always shown on,
      and the language and target lists are always present. */
  lemma EntityViewDefaults(job: PublishJob, statuses: seq<ManifestStatus>, allLanguages: seq<Language>,
                           allTargets: seq<TargetItem>, item: Option<ContentItem>, jobType: PublishJobType,
                           clientStatus: PublishingJobStatus, catalog: Catalog)
    ensures var e := JobEntityView(job, statuses, allLanguages, allTargets, item, jobType, clientStatus, catalog);
            && e.Id.Some? && e.ItemId.Some? && e.ItemName.Some? && e.StartPath.Some? && e.StatusMessage.Some?
            && e.Languages.Some? && e.Targets.Some? && e.Status.Some? && e.TypeDisplayName.Some?
            && (job.Options.ItemId.None? ==> e.ItemId == Some(""))
            && (item.None? ==> e.ItemName == Some("") && e.StartPath == Some(""))
            && (job.StatusMessage.None? ==> e.StatusMessage == Some(""))
            && e.SynchroniseWithTarget
  {
  }
}
