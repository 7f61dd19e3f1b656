/** What a normalised entry of the Azure DevOps settings takes over from the entries it was given. */
module AzureEntries {
  import opened Text
  import opened Lists
  import opened AzureSettings

  predicate CountKept(n: int, n0: int) {
    n == if n0 < 0 then 0 else n0
  }

  /** The poll state of a target: counters and times are not negative, texts are trimmed, nothing is mixed up. */
  predicate SamePoll(p: PollState, p0: PollState) {
    && CountKept(p.lastNotifiedBuildId, p0.lastNotifiedBuildId)
    && CountKept(p.lastNotifiedPullRequestUpdatedAtMs, p0.lastNotifiedPullRequestUpdatedAtMs)
    && CountKept(p.lastNotifiedAssignedWorkItemUpdatedAtMs, p0.lastNotifiedAssignedWorkItemUpdatedAtMs)
    && CountKept(p.lastNotifiedMentionCommentAtMs, p0.lastNotifiedMentionCommentAtMs)
    && p.lastNotifiedBuildResult == Trimmed(p0.lastNotifiedBuildResult)
    && CountKept(p.lastPollAttemptAtMs, p0.lastPollAttemptAtMs)
    && CountKept(p.lastPollSuccessAtMs, p0.lastPollSuccessAtMs)
    && p.lastPollErrorMessage == Trimmed(p0.lastPollErrorMessage)
    && p.lastPollErrorCategory == Trimmed(p0.lastPollErrorCategory)
    && CountKept(p.consecutivePollFailures, p0.consecutivePollFailures)
  }

  predicate SameTarget(t: Target, t0: Target) {
    && t.organization == Trimmed(t0.organization) && t.project == Trimmed(t0.project)
    && t.enabled == t0.enabled && SamePoll(t.poll, t0.poll)
  }

  predicate SameProject(p: Project, p0: Project) {
    && p.projectId == Trimmed(p0.projectId) && p.projectName == Trimmed(p0.projectName)
    && p.state == Trimmed(p0.state)
  }

  /** A project of the input, or the selected one, of which only the name is known. */
  ghost predicate ProjectFrom(p: Project, projects: seq<Project>, selected: string) {
    (exists p0 :: p0 in projects && SameProject(p, p0))
    || (selected != "" && p.projectId == "" && p.projectName == selected && p.state == "")
  }

  ghost predicate SameOrganization(o: Organization, o0: Organization, selected: string) {
    && o.organizationId == Trimmed(o0.organizationId) && o.organizationName == Trimmed(o0.organizationName)
    && o.organizationUrl == Trimmed(o0.organizationUrl)
    && forall p :: p in o.projects ==> ProjectFrom(p, o0.projects, selected)
  }

  /** An organisation of the input, or the selected one, of which only the name is known. */
  ghost predicate OrganizationFrom(o: Organization, c: Settings) {
    (exists o0 :: o0 in c.organizations && SameOrganization(o, o0, Trimmed(c.project)))
    || (&& Trimmed(c.organization) != "" && o.organizationId == "" && o.organizationName == Trimmed(c.organization)
        && o.organizationUrl == "" && forall p :: p in o.projects ==> ProjectFrom(p, [], Trimmed(c.project)))
  }

  lemma TargetFrom(fold: Folding, c: Settings, t: Target)
    requires t in Cleaned(fold, c).notificationTargets
    ensures exists t0 :: t0 in c.notificationTargets && SameTarget(t, t0)
  {
    hide NormalList, Trimmed;
    var t0 := NormalFrom(c.notificationTargets, CleanTarget, TargetKey(fold), t);
    assert SameTarget(t, t0);
  }

  lemma CleanedOrganization(fold: Folding, c: Settings, o: Organization) returns (o0: Organization)
    requires o in Cleaned(fold, c).organizations
    ensures o0 in c.organizations && SameOrganization(o, o0, Trimmed(c.project))
  {
    hide NormalList, Trimmed;
    o0 := NormalFrom(c.organizations, CleanOrganization(fold), OrganizationKey(fold), o);
    forall p | p in o.projects ensures ProjectFrom(p, o0.projects, Trimmed(c.project)) {
      var p0 := NormalFrom(o0.projects, CleanProject, ProjectKey(fold), p);
      assert SameProject(p, p0);
    }
  }

  lemma EnteredOrganizationFrom(fold: Folding, c: Settings, o: Organization)
    requires o in Entered(fold, Cleaned(fold, c)).organizations
    ensures OrganizationFrom(o, c)
  {
    hide NormalList, Trimmed, IndexOf, ProjectFrom, SameOrganization, CleanOrganization, CleanTarget;
    var d := Cleaned(fold, c);
    assert d.organization == Trimmed(c.organization) && d.project == Trimmed(c.project);
    if o in d.organizations {
      var o0 := CleanedOrganization(fold, c, o);
    } else if FindOrganization(fold, d.organizations, d.organization) < 0 {
      SelectedOrganization(d);
      assert o == NewOrganization(d);
    } else {
      var i := FindOrganization(fold, d.organizations, d.organization);
      var o1 := d.organizations[i];
      var o0 := CleanedOrganization(fold, c, o1);
      assert o == o1.(projects := o1.projects + [NewProject(d.project)]);
      ProjectJoins(o1, o0, d.project);
    }
  }

  lemma SelectedOrganization(d: Settings)
    ensures var o := NewOrganization(d);
            && o.organizationId == "" && o.organizationName == d.organization && o.organizationUrl == ""
            && forall p :: p in o.projects ==> ProjectFrom(p, [], d.project)
  {
  }

  lemma ProjectJoins(o1: Organization, o0: Organization, selected: string)
    requires SameOrganization(o1, o0, selected) && selected != ""
    ensures SameOrganization(o1.(projects := o1.projects + [NewProject(selected)]), o0, selected)
  {
    hide Trimmed, SameProject;
  }

  /**
   * What a pass takes over: every target, organisation and project of the result is one of the input with each of
   * its own fields trimmed, or the selected one; the user and a selection that is not blank stay what they are.
   */
  lemma NormalizedKeepsFields(fold: Folding, c: Settings)
    ensures var n := Normalized(fold, c);
            && (forall t :: t in n.notificationTargets ==>
                  exists t0 :: t0 in c.notificationTargets && SameTarget(t, t0))
            && (forall o :: o in n.organizations ==> OrganizationFrom(o, c))
            && n.currentUser.id == Trimmed(c.currentUser.id)
            && n.currentUser.displayName == Trimmed(c.currentUser.displayName)
            && n.currentUser.uniqueName == Trimmed(c.currentUser.uniqueName)
            && n.currentUser.email == Trimmed(c.currentUser.email)
            && (Trimmed(c.organization) != "" ==> n.organization == Trimmed(c.organization))
            && (Trimmed(c.organization) == "" ==>
                  n.organization == if n.organizations == [] then "" else n.organizations[0].organizationName)
            && (Trimmed(c.project) != "" ==> n.project == Trimmed(c.project))
  {
    hide Trimmed, NormalList, IndexOf, SameTarget, OrganizationFrom, CleanOrganization, CleanTarget;
    var n := Normalized(fold, c);
    forall t | t in n.notificationTargets ensures exists t0 :: t0 in c.notificationTargets && SameTarget(t, t0) {
      TargetFrom(fold, c, t);
    }
    forall o | o in n.organizations ensures OrganizationFrom(o, c) { EnteredOrganizationFrom(fold, c, o); }
  }

  /** The organisation with this name, ignoring case, that is listed first. */
  predicate IsSelected(fold: Folding, organizations: seq<Organization>, name: string, i: nat) {
    && i < |organizations| && fold(Trimmed(organizations[i].organizationName)) == fold(Trimmed(name))
    && forall j :: 0 <= j < i ==> fold(Trimmed(organizations[j].organizationName)) != fold(Trimmed(name))
  }

  /** A blank project becomes the first one of the selected organisation, if it lists any. */
  lemma MissingProjectIsFirst(fold: Folding, c: Settings)
    requires KeepsEmptiness(fold) && Trimmed(c.project) == ""
    ensures var n := Normalized(fold, c);
            if n.organization == "" then n.project == ""
            else exists i: nat :: IsSelected(fold, n.organizations, n.organization, i)
                     && n.project == if n.organizations[i].projects == [] then ""
                                   else n.organizations[i].projects[0].projectName
  {
    hide Trimmed, NormalList, IsNormal, CleanOrganization, CleanTarget, IndexOf, IsClean;
    var d, n := Cleaned(fold, c), Normalized(fold, c);
    var e := Entered(fold, d);
    CleanedIsClean(fold, c);
    if n.organization != "" {
      SelectionIsListed(fold, d);
      var i := FindOrganization(fold, e.organizations, e.organization);
      FoundIsSelected(fold, e.organizations, e.organization);
      assert IsSelected(fold, n.organizations, n.organization, i);
    }
  }

  lemma FoundIsSelected(fold: Folding, organizations: seq<Organization>, name: string)
    requires FindOrganization(fold, organizations, name) >= 0
    ensures IsSelected(fold, organizations, name, FindOrganization(fold, organizations, name))
  {
    hide Trimmed;
    IndexOfIsFirst(organizations, OrganizationKey(fold), [fold(Trimmed(name))]);
  }

  lemma SelectionIsListed(fold: Folding, d: Settings)
    requires KeepsEmptiness(fold) && IsClean(fold, d) && Entered(fold, d).organization != ""
    ensures var e := Entered(fold, d); FindOrganization(fold, e.organizations, e.organization) >= 0
  {
    hide Trimmed, IsClean, FindOrganization, FindProject;
    if d.organization != "" { EnteredOrganization(fold, d); } else { FirstOrganization(fold, d); }
  }
}
