/** Release planning, after `plan_release` of scripts/release.py. The registry is a parameter. */
module Release {
  import opened SemVer
  import opened Wrappers

  datatype Crate = Core | Adapter

  /** What the registry holds of each of the two crates of the workspace. */
  datatype Published = Published(core: set<Version>, adapter: set<Version>) {
    ghost predicate IsValid() { forall v <- core + adapter :: SemVer.IsValid(v) }

    function All(): set<Version> { core + adapter }

    function Complete(): set<Version> { core * adapter }
  }

  datatype ReleasePlan = ReleasePlan(version: Version, corePublished: bool, adapterPublished: bool)

  datatype ReleaseError = InvalidVersion | Incomplete(newest: Version, missing: Crate) | AlreadyPublished | NotNewer

  ghost predicate IsNewest(v: Version, versions: set<Version>) {
    v in versions && forall w <- versions :: w == v || Less(w, v)
  }

  /** `max`. Any order of iteration yields the same, see NewestIsUnique. */
  ghost function Newest(versions: set<Version>): (r: Option<Version>)
    requires forall v <- versions :: IsValid(v)
    ensures r.None? <==> versions == {}
    ensures r.Some? ==> IsNewest(r.value, versions)
  {
    if versions == {} then None
    else
      var v :| v in versions;
      var rest := Newest(versions - {v});
      assert forall w <- versions :: w != v ==> w in versions - {v};
      if rest.None? then Some(v) else Some(Later(versions, v, rest.value))
  }

  ghost function Later(versions: set<Version>, v: Version, rest: Version): (r: Version)
    requires forall w <- versions :: IsValid(w)
    requires v in versions && IsNewest(rest, versions - {v})
    ensures IsNewest(r, versions)
  {
    Trichotomy(v, rest);
    if Less(rest, v) then
      assert forall w <- versions :: w == v || Less(w, v) by {
        forall w <- versions ensures w == v || Less(w, v) {
          if w != v && w != rest {
            Transitive(w, rest, v);
          }
        }
      }
      v
    else rest
  }

  lemma NewestIsUnique(v: Version, w: Version, versions: set<Version>)
    requires forall x <- versions :: IsValid(x)
    requires IsNewest(v, versions) && IsNewest(w, versions)
    ensures v == w
  {
    Trichotomy(v, w);
  }

  /** `a > b`, as `total_ordering` derives it. */
  predicate Greater(a: Version, b: Version) { !Less(a, b) && a != b }

  ghost function PlanRelease(manifest: Version, requested: Option<string>, published: Published, allowComplete: bool)
    : Result<ReleasePlan, ReleaseError>
    requires IsValid(manifest) && published.IsValid()
  {
    var newest := Newest(published.All());
    var newestComplete := Newest(published.Complete());
    if requested.None? && newest.Some? && newest.value !in published.Complete()
       && (newestComplete.None? || Greater(newest.value, newestComplete.value))
    then Err(Incomplete(newest.value, if newest.value in published.core then Adapter else Core))
    else
      var chosen := match requested
                    case None =>
                      var base := if newest.Some? && Greater(newest.value, manifest) then newest.value else manifest;
                      Some(base.NextPatch())
                    case Some(text) => Parse(text);
      if chosen.None? then Err(InvalidVersion)
      else
        var version := chosen.value;
        var inCore, inAdapter := version in published.core, version in published.adapter;
        if inCore && inAdapter && !allowComplete then Err(AlreadyPublished)
        else if requested.Some? && !inCore && !inAdapter && newest.Some?
                && (Less(version, newest.value) || version == newest.value)
        then Err(NotNewer)
        else Ok(ReleasePlan(version, inCore, inAdapter))
  }

  ghost predicate NewerThanAll(v: Version, published: Published) { forall w <- published.All() :: Less(w, v) }

  ghost predicate NewestIsIncomplete(published: Published, newest: Version) {
    IsNewest(newest, published.All()) && newest !in published.Complete()
  }

  /** The manifest's version or the newest published one, whichever is later. */
  ghost predicate IsLatest(v: Version, manifest: Version, published: Published) {
    && v in published.All() + {manifest}
    && forall w <- published.All() + {manifest} :: w == v || Less(w, v)
  }

  /** With no request: the patch after the latest of manifest and registry, so strictly newer than the manifest and
      than everything published of either crate; refused exactly when the newest published version is missing for one
      crate, and that crate is named. */
  lemma PlanWithoutRequest(manifest: Version, published: Published, allowComplete: bool)
    requires IsValid(manifest) && published.IsValid()
    ensures match PlanRelease(manifest, None, published, allowComplete)
            case Ok(plan) =>
              && IsValid(plan.version)
              && Less(manifest, plan.version) && NewerThanAll(plan.version, published)
              && !plan.corePublished && !plan.adapterPublished
              && (forall newest :: !NewestIsIncomplete(published, newest))
              && (exists base :: IsLatest(base, manifest, published)
                                 && plan.version == Version(base.major, base.minor, base.patch + 1, []))
            case Err(error) =>
              && error.Incomplete?
              && NewestIsIncomplete(published, error.newest)
              && error.newest !in (if error.missing == Core then published.core else published.adapter)
  {
    var newest := Newest(published.All());
    if newest.Some? {
      forall v | NewestIsIncomplete(published, v) ensures v == newest.value {
        NewestIsUnique(v, newest.value, published.All());
      }
      var newestComplete := Newest(published.Complete());
      if newestComplete.Some? {
        Trichotomy(newest.value, newestComplete.value);
      }
      Trichotomy(newest.value, manifest);
      var base := if Greater(newest.value, manifest) then newest.value else manifest;
      NextPatchIsNewer(manifest, newest.value, base, published);
      LatestIsBase(manifest, newest.value, base, published);
    } else {
      NextPatchIsLater(manifest);
      assert IsLatest(manifest, manifest, published);
    }
  }

  lemma LatestIsBase(manifest: Version, newest: Version, base: Version, published: Published)
    requires IsValid(manifest) && published.IsValid() && IsNewest(newest, published.All())
    requires base == if Greater(newest, manifest) then newest else manifest
    ensures IsLatest(base, manifest, published)
  {
    Trichotomy(newest, manifest);
    forall w <- published.All() + {manifest} ensures w == base || Less(w, base) {
      if w != newest && w != manifest && base == manifest && newest != manifest {
        Transitive(w, newest, manifest);
      }
    }
  }

  lemma NextPatchIsNewer(manifest: Version, newest: Version, base: Version, published: Published)
    requires IsValid(manifest) && published.IsValid() && IsNewest(newest, published.All())
    requires base == manifest || Less(manifest, base)
    requires base == newest || Less(newest, base)
    requires IsValid(base)
    ensures var next := base.NextPatch();
            IsValid(next) && Less(manifest, next) && NewerThanAll(next, published)
            && next !in published.core && next !in published.adapter
  {
    var next := base.NextPatch();
    NextPatchIsLater(base);
    if base != manifest {
      Transitive(manifest, base, next);
    }
    forall w <- published.All() ensures Less(w, next) {
      if w != newest && newest != base {
        Transitive(w, newest, base);
      }
      if w != base {
        Transitive(w, base, next);
      }
    }
    Trichotomy(next, next);
    assert next !in published.All();
  }

  /** With a request, the whole case analysis. */
  lemma PlanWithRequest(manifest: Version, text: string, published: Published, allowComplete: bool)
    requires IsValid(manifest) && published.IsValid()
    ensures var result := PlanRelease(manifest, Some(text), published, allowComplete);
            match Parse(text)
            case None => result == Err(InvalidVersion)
            case Some(v) =>
              && IsValid(v)
              && (v in published.Complete() ==>
                  result == if allowComplete then Ok(ReleasePlan(v, true, true)) else Err(AlreadyPublished))
              && (v in published.core - published.adapter ==> result == Ok(ReleasePlan(v, true, false)))
              && (v in published.adapter - published.core ==> result == Ok(ReleasePlan(v, false, true)))
              && (v !in published.All() ==>
                  result == if NewerThanAll(v, published) then Ok(ReleasePlan(v, false, false)) else Err(NotNewer))
  {
    if Parse(text).Some? {
      ToStringUndoesParse(text);
      var v := Parse(text).value;
      var newest := Newest(published.All());
      if newest.Some? && v !in published.All() {
        NewerThanNewest(v, newest.value, published);
      }
    }
  }

  lemma NewerThanNewest(v: Version, newest: Version, published: Published)
    requires IsValid(v) && published.IsValid() && IsNewest(newest, published.All())
    ensures Less(newest, v) <==> NewerThanAll(v, published)
    ensures Less(newest, v) <==> !(Less(v, newest) || v == newest)
  {
    Trichotomy(v, newest);
    if Less(newest, v) {
      forall w <- published.All() ensures Less(w, v) {
        if w != newest {
          Transitive(w, newest, v);
        }
      }
    }
  }

  // ---------------------------------------------------------------------------------------------------
  // A release that stops half-way

  function Publish(published: Published, crate: Crate, v: Version): Published {
    match crate
    case Core => published.(core := published.core + {v})
    case Adapter => published.(adapter := published.adapter + {v})
  }

  function Other(crate: Crate): Crate { if crate == Core then Adapter else Core }

  /** Any release that was planned and then stopped after one crate blocks the next one, is resumed by asking for
      its version by name, and once resumed is complete and leaves the way free. */
  lemma InterruptedReleaseResumes(manifest: Version, requested: Option<string>, published: Published, first: Crate,
                                  manifest': Version)
    requires IsValid(manifest) && IsValid(manifest') && published.IsValid()
    requires var planned := PlanRelease(manifest, requested, published, false);
             planned.Ok? && !planned.value.corePublished && !planned.value.adapterPublished
    ensures var v := PlanRelease(manifest, requested, published, false).value.version;
            var half := Publish(published, first, v);
            && IsBlockedBy(manifest', half, v, Other(first))
            && PlanRelease(manifest', Some(v.ToString()), half, false)
               == Ok(ReleasePlan(v, first == Core, first == Adapter))
            && IsBehind(manifest', Publish(half, Other(first), v), v)
  {
    var v := PlanRelease(manifest, requested, published, false).value.version;
    PlannedIsNewer(manifest, requested, published);
    var half := Publish(published, first, v);
    HalfIsBlocked(manifest', published, first, v);
    ParseUndoesToString(v);
    PlanWithRequest(manifest', v.ToString(), half, false);
    var whole := Publish(half, Other(first), v);
    NewlyPublishedIsNewest(published, whole, v);
    WholeIsBehind(manifest', whole, v);
  }

  /** Planning without a request fails for want of this crate of this version. */
  ghost predicate IsBlockedBy(manifest: Version, published: Published, v: Version, missing: Crate)
    requires IsValid(manifest)
  {
    published.IsValid() && PlanRelease(manifest, None, published, false) == Err(Incomplete(v, missing))
  }

  /** The version is complete: asking for it needs permission, and not asking leads to a later one. */
  ghost predicate IsBehind(manifest: Version, published: Published, v: Version)
    requires IsValid(manifest)
  {
    && published.IsValid()
    && PlanRelease(manifest, Some(v.ToString()), published, false) == Err(AlreadyPublished)
    && PlanRelease(manifest, Some(v.ToString()), published, true) == Ok(ReleasePlan(v, true, true))
    && PlanRelease(manifest, None, published, false).Ok?
    && Less(v, PlanRelease(manifest, None, published, false).value.version)
  }

  lemma HalfIsBlocked(manifest: Version, published: Published, first: Crate, v: Version)
    requires IsValid(manifest) && published.IsValid() && IsValid(v) && NewerThanAll(v, published)
             && v !in published.All()
    ensures IsBlockedBy(manifest, Publish(published, first, v), v, Other(first))
  {
    var half := Publish(published, first, v);
    NewlyPublishedIsNewest(published, half, v);
    assert NewestIsIncomplete(half, v);
    PlanWithoutRequest(manifest, half, false);
    NewestIsUnique(v, PlanRelease(manifest, None, half, false).error.newest, half.All());
  }

  lemma WholeIsBehind(manifest: Version, whole: Published, v: Version)
    requires IsValid(manifest) && whole.IsValid() && IsNewest(v, whole.All()) && v in whole.Complete()
    ensures IsBehind(manifest, whole, v)
  {
    ParseUndoesToString(v);
    PlanWithRequest(manifest, v.ToString(), whole, false);
    PlanWithRequest(manifest, v.ToString(), whole, true);
    PlanWithoutRequest(manifest, whole, false);
    var planned := PlanRelease(manifest, None, whole, false);
    if planned.Err? {
      NewestIsUnique(v, planned.error.newest, whole.All());
    }
  }

  lemma PlannedIsNewer(manifest: Version, requested: Option<string>, published: Published)
    requires IsValid(manifest) && published.IsValid()
    requires var planned := PlanRelease(manifest, requested, published, false);
             planned.Ok? && !planned.value.corePublished && !planned.value.adapterPublished
    ensures var v := PlanRelease(manifest, requested, published, false).value.version;
            IsValid(v) && NewerThanAll(v, published) && v !in published.All()
  {
    match requested {
      case None => PlanWithoutRequest(manifest, published, false);
      case Some(text) => PlanWithRequest(manifest, text, published, false);
    }
    var v := PlanRelease(manifest, requested, published, false).value.version;
    Trichotomy(v, v);
  }

  lemma NewlyPublishedIsNewest(before: Published, after: Published, v: Version)
    requires before.IsValid() && IsValid(v) && NewerThanAll(v, before)
    requires after.All() == before.All() + {v}
    ensures after.IsValid() && IsNewest(v, after.All())
  {
  }
}
