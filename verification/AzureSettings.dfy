/** The normalisation of the Azure DevOps connection settings. */
module AzureSettings {
  import opened Text
  import opened Sql
  import opened Lists

  datatype Project = Project(projectId: string, projectName: string, state: string)

  datatype Organization = Organization(organizationId: string, organizationName: string, organizationUrl: string,
                                       projects: seq<Project>)

  datatype PollState = PollState(
    lastNotifiedBuildId: int, lastNotifiedPullRequestUpdatedAtMs: int, lastNotifiedAssignedWorkItemUpdatedAtMs: int,
    lastNotifiedMentionCommentAtMs: int, lastNotifiedBuildResult: string, lastPollAttemptAtMs: int,
      lastPollSuccessAtMs: int,
    lastPollErrorMessage: string, lastPollErrorCategory: string, consecutivePollFailures: int)

  datatype Target = Target(organization: string, project: string, enabled: bool, poll: PollState)

  datatype User = User(id: string, displayName: string, uniqueName: string, email: string)

  datatype Settings = Settings(
    organization: string, project: string, currentUser: User, organizations: seq<Organization>,
      notificationTargets: seq<Target>)

  // ------------------------------------------------------ projects, organisations, targets

  function ProjectKey(fold: Folding): Project -> seq<string> {
    (p: Project) => [fold(Trimmed(p.projectName))]
  }

  function OrganizationKey(fold: Folding): Organization -> seq<string> {
    (o: Organization) => [fold(Trimmed(o.organizationName))]
  }

  function TargetKey(fold: Folding): Target -> seq<string> {
    (t: Target) => [fold(Trimmed(t.organization)), fold(Trimmed(t.project))]
  }

  function CleanProject(p: Project): Project {
    Project(Trimmed(p.projectId), Trimmed(p.projectName), Trimmed(p.state))
  }

  function CleanOrganization(fold: Folding): Organization -> Organization {
    (o: Organization) => Organization(Trimmed(o.organizationId), Trimmed(o.organizationName),
                                      Trimmed(o.organizationUrl),
                                      NormalList(o.projects, CleanProject, ProjectKey(fold)))
  }

  function CleanPoll(p: PollState): PollState {
    PollState(Max(0, p.lastNotifiedBuildId), Max(0, p.lastNotifiedPullRequestUpdatedAtMs),
              Max(0, p.lastNotifiedAssignedWorkItemUpdatedAtMs), Max(0, p.lastNotifiedMentionCommentAtMs),
              Trimmed(p.lastNotifiedBuildResult), Max(0, p.lastPollAttemptAtMs), Max(0, p.lastPollSuccessAtMs),
              Trimmed(p.lastPollErrorMessage), Trimmed(p.lastPollErrorCategory), Max(0, p.consecutivePollFailures))
  }

  function CleanTarget(t: Target): Target {
    Target(Trimmed(t.organization), Trimmed(t.project), t.enabled, CleanPoll(t.poll))
  }

  lemma CleaningTwice(fold: Folding)
    ensures Idempotent(CleanProject) && Idempotent(CleanOrganization(fold)) && Idempotent(CleanTarget)
  {
    hide Trimmed, NormalList, IsNormal;
    forall s ensures Trimmed(Trimmed(s)) == Trimmed(s) { TrimmedIsIdempotent(s); }
    assert Idempotent(CleanProject);
    forall o: Organization ensures CleanOrganization(fold)(CleanOrganization(fold)(o)) == CleanOrganization(fold)(o) {
      NormalListIsNormal(o.projects, CleanProject, ProjectKey(fold));
      NormalListOfNormal(NormalList(o.projects, CleanProject, ProjectKey(fold)), CleanProject, ProjectKey(fold));
    }
  }

  // ------------------------------------------------------ the settings

  /** The first part of a pass: every list cleaned, every string trimmed. */
  function Cleaned(fold: Folding, c: Settings): Settings {
    Settings(
      Trimmed(c.organization), Trimmed(c.project),
      User(Trimmed(c.currentUser.id), Trimmed(c.currentUser.displayName), Trimmed(c.currentUser.uniqueName),
           Trimmed(c.currentUser.email)),
      NormalList(c.organizations, CleanOrganization(fold), OrganizationKey(fold)),
      NormalList(c.notificationTargets, CleanTarget, TargetKey(fold)))
  }

  function NewProject(name: string): Project {
    Project("", name, "")
  }

  function NewOrganization(c: Settings): Organization {
    Organization("", c.organization, "", if c.project != "" then [NewProject(c.project)] else [])
  }

  function FindOrganization(fold: Folding, organizations: seq<Organization>, name: string): (index: int)
    ensures -1 <= index < |organizations|
  {
    IndexOf(organizations, OrganizationKey(fold), [fold(Trimmed(name))])
  }

  function FindProject(fold: Folding, projects: seq<Project>, name: string): (index: int)
    ensures -1 <= index < |projects|
  {
    IndexOf(projects, ProjectKey(fold), [fold(Trimmed(name))])
  }

  /** The selected organisation and project are entered in the lists, or the organisation taken from them. */
  function Entered(fold: Folding, c: Settings): Settings {
    if c.organization == "" then
      if c.organizations == [] then c else c.(organization := c.organizations[0].organizationName)
    else
      var i := FindOrganization(fold, c.organizations, c.organization);
      if i < 0 then c.(organizations := c.organizations + [NewOrganization(c)])
      else if c.project != "" && FindProject(fold, c.organizations[i].projects, c.project) < 0 then
        var o := c.organizations[i];
        c.(organizations := c.organizations[i := o.(projects := o.projects + [NewProject(c.project)])])
      else c
  }

  /** A missing project is taken from the selected organisation. */
  function Filled(fold: Folding, c: Settings): Settings {
    var i := FindOrganization(fold, c.organizations, c.organization);
    if c.organization != "" && i >= 0 && c.project == "" && c.organizations[i].projects != []
    then c.(project := c.organizations[i].projects[0].projectName)
    else c
  }

  function Normalized(fold: Folding, c: Settings): Settings {
    Filled(fold, Entered(fold, Cleaned(fold, c)))
  }

  // ------------------------------------------------------ what a pass produces

  /** Everything trimmed; lists without blanks and without two entries that differ only in case. */
  ghost predicate IsClean(fold: Folding, c: Settings) {
    && Trimmed(c.organization) == c.organization && Trimmed(c.project) == c.project
    && Trimmed(c.currentUser.id) == c.currentUser.id && Trimmed(c.currentUser.displayName) == c.currentUser.displayName
    && Trimmed(c.currentUser.uniqueName) == c.currentUser.uniqueName
    && Trimmed(c.currentUser.email) == c.currentUser.email
    && IsNormal(c.organizations, CleanOrganization(fold), OrganizationKey(fold))
    && IsNormal(c.notificationTargets, CleanTarget, TargetKey(fold))
  }

  lemma CleanedIsClean(fold: Folding, c: Settings)
    ensures IsClean(fold, Cleaned(fold, c))
  {
    hide Trimmed, NormalList, IsNormal;
    forall s ensures Trimmed(Trimmed(s)) == Trimmed(s) { TrimmedIsIdempotent(s); }
    CleaningTwice(fold);
    NormalListIsNormal(c.organizations, CleanOrganization(fold), OrganizationKey(fold));
    NormalListIsNormal(c.notificationTargets, CleanTarget, TargetKey(fold));
  }

  lemma CleanedOfClean(fold: Folding, c: Settings)
    requires IsClean(fold, c)
    ensures Cleaned(fold, c) == c
  {
    hide Trimmed, NormalList, IsNormal;
    NormalListOfNormal(c.organizations, CleanOrganization(fold), OrganizationKey(fold));
    NormalListOfNormal(c.notificationTargets, CleanTarget, TargetKey(fold));
  }

  lemma OneProject(fold: Folding, name: string)
    requires KeepsEmptiness(fold) && name != "" && Trimmed(name) == name
    ensures IsNormal([NewProject(name)], CleanProject, ProjectKey(fold))
    ensures CleanProject(NewProject(name)) == NewProject(name) && "" !in ProjectKey(fold)(NewProject(name))
    ensures ProjectKey(fold)(NewProject(name)) == [fold(Trimmed(name))]
  {
    assert fold(name) == "" <==> name == "";
    assert TrimLeft("") == "" && Trimmed("") == "";
  }

  lemma NoProject(fold: Folding)
    ensures IsNormal([], CleanProject, ProjectKey(fold))
  {
  }

  lemma NewOrganizationIsClean(fold: Folding, c: Settings)
    requires KeepsEmptiness(fold) && Trimmed(c.organization) == c.organization && Trimmed(c.project) == c.project
             && c.organization != ""
    ensures var o := NewOrganization(c);
            CleanOrganization(fold)(o) == o && OrganizationKey(fold)(o) == [fold(Trimmed(c.organization))]
              && "" !in OrganizationKey(fold)(o)
  {
    hide NormalList, IsNormal;
    assert fold(c.organization) == "" <==> c.organization == "";
    assert TrimLeft("") == "" && Trimmed("") == "";
    if c.project != "" { OneProject(fold, c.project); } else { NoProject(fold); }
    NormalListOfNormal(NewOrganization(c).projects, CleanProject, ProjectKey(fold));
  }

  lemma ProjectAdded(fold: Folding, o: Organization, name: string)
    requires KeepsEmptiness(fold) && CleanOrganization(fold)(o) == o && name != "" && Trimmed(name) == name
             && FindProject(fold, o.projects, name) < 0
    ensures var o' := o.(projects := o.projects + [NewProject(name)]);
            CleanOrganization(fold)(o') == o' && OrganizationKey(fold)(o') == OrganizationKey(fold)(o)
              && FindProject(fold, o'.projects, name) >= 0
  {
    hide NormalList, IsNormal, Trimmed, IndexOf, CleanProject, ProjectKey;
    OneProject(fold, name);
    CleaningTwice(fold);
    NormalListIsNormal(o.projects, CleanProject, ProjectKey(fold));
    NormalAppend(o.projects, NewProject(name), CleanProject, ProjectKey(fold));
    NormalListOfNormal(o.projects + [NewProject(name)], CleanProject, ProjectKey(fold));
    IndexOfAppended(o.projects, NewProject(name), ProjectKey(fold));
  }

  lemma EnteredIsClean(fold: Folding, c: Settings)
    requires KeepsEmptiness(fold) && IsClean(fold, c)
    ensures IsClean(fold, Entered(fold, c))
  {
    hide NormalList, IsNormal, Trimmed, CleanOrganization, OrganizationKey, TargetKey, CleanTarget, NewOrganization,
         NewProject, IndexOf;
    if c.organization == "" {
      if c.organizations != [] {
        NormalMember(c.organizations, 0, CleanOrganization(fold), OrganizationKey(fold));
        CleanName(fold, c.organizations[0]);
      }
    } else {
      var i := FindOrganization(fold, c.organizations, c.organization);
      if i < 0 {
        NewOrganizationIsClean(fold, c);
        NormalAppend(c.organizations, NewOrganization(c), CleanOrganization(fold), OrganizationKey(fold));
      } else if c.project != "" && FindProject(fold, c.organizations[i].projects, c.project) < 0 {
        NormalMember(c.organizations, i, CleanOrganization(fold), OrganizationKey(fold));
        ProjectAdded(fold, c.organizations[i], c.project);
        NormalUpdate(c.organizations, i,
                     c.organizations[i].(projects := c.organizations[i].projects + [NewProject(c.project)]),
                     CleanOrganization(fold), OrganizationKey(fold));
      }
    }
  }

  lemma CleanName(fold: Folding, o: Organization)
    requires CleanOrganization(fold)(o) == o
    ensures Trimmed(o.organizationName) == o.organizationName
  {
    hide Trimmed, NormalList;
  }

  lemma CleanProjects(fold: Folding, o: Organization)
    requires CleanOrganization(fold)(o) == o
    ensures IsNormal(o.projects, CleanProject, ProjectKey(fold))
  {
    hide Trimmed, NormalList, IsNormal;
    CleaningTwice(fold);
    NormalListIsNormal(o.projects, CleanProject, ProjectKey(fold));
  }

  /** The first project of a clean organisation is found under its own name, which is trimmed and not empty. */
  lemma FirstProject(fold: Folding, o: Organization)
    requires KeepsEmptiness(fold) && CleanOrganization(fold)(o) == o && o.projects != []
    ensures var name := o.projects[0].projectName;
           Trimmed(name) == name && name != "" && FindProject(fold, o.projects, name) >= 0
  {
    hide Trimmed, NormalList, IsNormal;
    CleanProjects(fold, o);
    NormalMember(o.projects, 0, CleanProject, ProjectKey(fold));
    IndexOfIsFirst(o.projects, ProjectKey(fold), ProjectKey(fold)(o.projects[0]));
    assert fold(o.projects[0].projectName) == "" <==> o.projects[0].projectName == "";
  }

  lemma FirstOrganization(fold: Folding, c: Settings)
    requires KeepsEmptiness(fold) && IsClean(fold, c) && c.organizations != []
    ensures var name := c.organizations[0].organizationName;
           name != "" && FindOrganization(fold, c.organizations, name) == 0
  {
    hide Trimmed, NormalList, IsNormal;
    NormalMember(c.organizations, 0, CleanOrganization(fold), OrganizationKey(fold));
    IndexOfIsFirst(c.organizations, OrganizationKey(fold), OrganizationKey(fold)(c.organizations[0]));
    assert fold(c.organizations[0].organizationName) == "" <==> c.organizations[0].organizationName == "";
    CleanName(fold, c.organizations[0]);
  }

  lemma FilledIsClean(fold: Folding, c: Settings)
    requires KeepsEmptiness(fold) && IsClean(fold, c)
    ensures IsClean(fold, Filled(fold, c))
  {
    hide Trimmed, NormalList, IsNormal, IndexOf, CleanOrganization, CleanTarget;
    var i := FindOrganization(fold, c.organizations, c.organization);
    if i >= 0 {
      NormalMember(c.organizations, i, CleanOrganization(fold), OrganizationKey(fold));
      if c.organizations[i].projects != [] { FirstProject(fold, c.organizations[i]); }
    }
  }

  /** After one pass everything is trimmed, non-empty and unique ignoring case, whatever the settings were. */
  lemma NormalizedIsClean(fold: Folding, c: Settings)
    requires KeepsEmptiness(fold)
    ensures IsClean(fold, Normalized(fold, c))
  {
    hide IsClean, Cleaned, Entered, Filled;
    CleanedIsClean(fold, c);
    EnteredIsClean(fold, Cleaned(fold, c));
    FilledIsClean(fold, Entered(fold, Cleaned(fold, c)));
  }

  // ------------------------------------------------------ fixed points

  /** The selected organisation and project are in the lists, or there is nothing to select. */
  predicate Settled(fold: Folding, c: Settings) {
    if c.organization == "" then c.organizations == []
    else
      var i := FindOrganization(fold, c.organizations, c.organization);
      i >= 0 && if c.project == "" then c.organizations[i].projects == []
        else FindProject(fold, c.organizations[i].projects, c.project) >= 0
  }

  /** A project without an organisation, and the organisation about to be chosen does not list it. */
  predicate ProjectOnly(fold: Folding, c: Settings) {
    c.organization == "" && c.project != "" && c.organizations != []
      && FindProject(fold, c.organizations[0].projects, c.project) < 0
  }

  lemma SettledIsFixed(fold: Folding, c: Settings)
    requires IsClean(fold, c) && Settled(fold, c)
    ensures Normalized(fold, c) == c
  {
    hide IsClean, Cleaned, FindOrganization, FindProject;
    CleanedOfClean(fold, c);
  }

  lemma EnteredOrganization(fold: Folding, c: Settings)
    requires KeepsEmptiness(fold) && IsClean(fold, c) && c.organization != ""
    ensures var e := Entered(fold, c); var i := FindOrganization(fold, e.organizations, c.organization);
            e.organization == c.organization && e.project == c.project
            && i >= 0 && (c.project != "" ==> FindProject(fold, e.organizations[i].projects, c.project) >= 0)
  {
    hide Trimmed, NormalList, IsNormal, CleanOrganization, CleanTarget, IndexOf, OrganizationKey, ProjectKey;
    var i := FindOrganization(fold, c.organizations, c.organization);
    if i < 0 {
      NewOrganizationIsClean(fold, c);
      IndexOfAppended(c.organizations, NewOrganization(c), OrganizationKey(fold));
      if c.project != "" {
        OneProject(fold, c.project);
        IndexOfIsFirst([NewProject(c.project)], ProjectKey(fold), ProjectKey(fold)(NewProject(c.project)));
        assert [NewProject(c.project)][0] == NewProject(c.project);
      }
    } else if c.project != "" && FindProject(fold, c.organizations[i].projects, c.project) < 0 {
      NormalMember(c.organizations, i, CleanOrganization(fold), OrganizationKey(fold));
      ProjectAdded(fold, c.organizations[i], c.project);
      SameIndex(c.organizations, Entered(fold, c).organizations, OrganizationKey(fold),
                [fold(Trimmed(c.organization))]);
    }
  }

  lemma FilledIsSettled(fold: Folding, e: Settings)
    requires KeepsEmptiness(fold) && IsClean(fold, e) && e.organization != ""
             && FindOrganization(fold, e.organizations, e.organization) >= 0
    requires e.project != ""
             ==> FindProject(fold, e.organizations[FindOrganization(fold, e.organizations, e.organization)].projects,
                             e.project) >= 0
    ensures Settled(fold, Filled(fold, e))
  {
    hide IsNormal, FindOrganization, FindProject, CleanOrganization, OrganizationKey, Trimmed, CleanTarget;
    var i := FindOrganization(fold, e.organizations, e.organization);
    NormalMember(e.organizations, i, CleanOrganization(fold), OrganizationKey(fold));
    if e.organizations[i].projects != [] { FirstProject(fold, e.organizations[i]); }
  }

  /** Which clean settings are settled by one pass. */
  lemma PassSettles(fold: Folding, c: Settings)
    requires KeepsEmptiness(fold) && IsClean(fold, c)
    ensures Settled(fold, Filled(fold, Entered(fold, c))) <==> !ProjectOnly(fold, c)
  {
    hide IsClean, FindOrganization, FindProject;
    var e := Entered(fold, c);
    EnteredIsClean(fold, c);
    if c.organization != "" {
      EnteredOrganization(fold, c);
      FilledIsSettled(fold, e);
    } else if c.organizations != [] {
      FirstOrganization(fold, c);
      if !ProjectOnly(fold, c) { FilledIsSettled(fold, e); }
    }
  }

  /** An unsettled result is not a fixed point: the next pass enters the project. */
  lemma UnsettledMoves(fold: Folding, c: Settings)
    requires KeepsEmptiness(fold) && IsClean(fold, c) && ProjectOnly(fold, c)
    ensures Normalized(fold, Filled(fold, Entered(fold, c))) != Filled(fold, Entered(fold, c))
  {
    hide IsClean, FindOrganization, FindProject, Cleaned;
    var f := Filled(fold, Entered(fold, c));
    EnteredIsClean(fold, c);
    FilledIsClean(fold, Entered(fold, c));
    CleanedOfClean(fold, f);
    FirstOrganization(fold, c);
    assert |Entered(fold, f).organizations[0].projects| == |f.organizations[0].projects| + 1;
  }

  /**
   * One pass reaches the fixed point exactly when it is not the case that, after trimming, the organisation is
   * empty, the project is not, and the first listed organisation lacks that project.
   */
  lemma OnePassSuffices(fold: Folding, c: Settings)
    requires KeepsEmptiness(fold)
    ensures Normalized(fold, Normalized(fold, c)) == Normalized(fold, c) <==> !ProjectOnly(fold, Cleaned(fold, c))
  {
    hide IsClean, Cleaned, Entered, Filled, ProjectOnly, Settled;
    CleanedIsClean(fold, c);
    PassSettles(fold, Cleaned(fold, c));
    if ProjectOnly(fold, Cleaned(fold, c)) {
      UnsettledMoves(fold, Cleaned(fold, c));
    } else {
      NormalizedIsClean(fold, c);
      SettledIsFixed(fold, Normalized(fold, c));
    }
  }

  /** A second pass does change something: a project is given, and the only organisation listed has no projects. */
  lemma SecondPassNeeded(fold: Folding, name: string, project: string)
    requires KeepsEmptiness(fold) && Clean(name) && Clean(project)
    ensures var c := Settings("", project, User("", "", "", ""), [Organization("", name, "", [])], []);
            Normalized(fold, Normalized(fold, c)) != Normalized(fold, c)
  {
    hide Normalized, NormalList, IsNormal, Trimmed;
    assert TrimLeft("") == "" && Trimmed("") == "" by { NothingToTrim(); }
    var o := Organization("", name, "", []);
    var c := Settings("", project, User("", "", "", ""), [o], []);
    NoProject(fold);
    NormalListOfNormal([], CleanProject, ProjectKey(fold));
    OneOrganization(fold, o);
    NormalListOfNormal([o], CleanOrganization(fold), OrganizationKey(fold));
    NothingNormal(CleanTarget, TargetKey(fold));
    OnePassSuffices(fold, c);
  }

  lemma NothingToTrim()
    ensures Trimmed("") == ""
  {
  }

  lemma OneOrganization(fold: Folding, o: Organization)
    requires KeepsEmptiness(fold) && CleanOrganization(fold)(o) == o && o.organizationName != ""
    ensures IsNormal([o], CleanOrganization(fold), OrganizationKey(fold))
  {
    hide NormalList, Trimmed;
    CleanName(fold, o);
  }

  /** Two passes always suffice. */
  lemma TwoPassesSuffice(fold: Folding, c: Settings)
    requires KeepsEmptiness(fold)
    ensures Normalized(fold, Normalized(fold, Normalized(fold, c))) == Normalized(fold, Normalized(fold, c))
  {
    hide IsClean, Cleaned;
    var n := Normalized(fold, c);
    NormalizedIsClean(fold, c);
    CleanedOfClean(fold, n);
    CleanedIsClean(fold, c);
    SelectsOrganization(fold, Cleaned(fold, c));
    OnePassSuffices(fold, n);
  }

  lemma SelectsOrganization(fold: Folding, c: Settings)
    requires KeepsEmptiness(fold) && IsClean(fold, c)
    ensures !ProjectOnly(fold, Filled(fold, Entered(fold, c)))
  {
    hide IsClean, FindOrganization, FindProject;
    if c.organization == "" && c.organizations != [] { FirstOrganization(fold, c); }
  }

  // ------------------------------------------------------ the pass as it is written

  method NormalizeProjects(fold: Folding, projects: seq<Project>) returns (normalized: seq<Project>)
    requires KeepsEmptiness(fold)
    ensures normalized == NormalList(projects, CleanProject, ProjectKey(fold))
  {
    hide Trimmed, NormalList, ProjectKey;
    normalized := [];
    NothingNormal(CleanProject, ProjectKey(fold));
    for i := 0 to |projects|
      invariant normalized == NormalList(projects[..i], CleanProject, ProjectKey(fold))
    {
      OneMoreItem(projects, i, CleanProject, ProjectKey(fold));
      var project := Project(Trimmed(projects[i].projectId), Trimmed(projects[i].projectName),
                             Trimmed(projects[i].state));
      var seen := FindIndex(normalized, ProjectKey(fold), ProjectKey(fold)(project));
      BlankProject(fold, projects[i]);
      if project.projectName != "" && seen < 0 {
        normalized := normalized + [project];
      }
    }
    assert projects[..|projects|] == projects;
  }

  method NormalizeOrganizationList(fold: Folding, organizations: seq<Organization>)
      returns (normalized: seq<Organization>)
    requires KeepsEmptiness(fold)
    ensures normalized == NormalList(organizations, CleanOrganization(fold), OrganizationKey(fold))
  {
    hide Trimmed, NormalList, OrganizationKey;
    normalized := [];
    NothingNormal(CleanOrganization(fold), OrganizationKey(fold));
    for i := 0 to |organizations|
      invariant normalized == NormalList(organizations[..i], CleanOrganization(fold), OrganizationKey(fold))
    {
      OneMoreItem(organizations, i, CleanOrganization(fold), OrganizationKey(fold));
      var entry := organizations[i];
      var projects := NormalizeProjects(fold, entry.projects);
      entry := Organization(Trimmed(entry.organizationId), Trimmed(entry.organizationName),
                            Trimmed(entry.organizationUrl), projects);
      var seen := FindIndex(normalized, OrganizationKey(fold), OrganizationKey(fold)(entry));
      BlankOrganization(fold, organizations[i]);
      if entry.organizationName != "" && seen < 0 {
        normalized := normalized + [entry];
      }
    }
    assert organizations[..|organizations|] == organizations;
  }

  method NormalizeTargets(fold: Folding, targets: seq<Target>) returns (normalized: seq<Target>)
    requires KeepsEmptiness(fold)
    ensures normalized == NormalList(targets, CleanTarget, TargetKey(fold))
  {
    hide Trimmed, NormalList, TargetKey, CleanPoll;
    normalized := [];
    NothingNormal(CleanTarget, TargetKey(fold));
    for i := 0 to |targets|
      invariant normalized == NormalList(targets[..i], CleanTarget, TargetKey(fold))
    {
      OneMoreItem(targets, i, CleanTarget, TargetKey(fold));
      var target := Target(Trimmed(targets[i].organization), Trimmed(targets[i].project), targets[i].enabled,
                           CleanPoll(targets[i].poll));
      BlankTarget(fold, targets[i]);
      if target.organization == "" || target.project == "" { continue; }
      var seen := FindIndex(normalized, TargetKey(fold), TargetKey(fold)(target));
      if seen < 0 {
        normalized := normalized + [target];
      }
    }
    assert targets[..|targets|] == targets;
  }

  lemma TrimmedBlank(fold: Folding, s: string)
    requires KeepsEmptiness(fold)
    ensures fold(Trimmed(Trimmed(s))) == "" <==> Trimmed(s) == ""
  {
    hide Trimmed;
    TrimmedIsIdempotent(s);
    assert fold(Trimmed(s)) == "" <==> Trimmed(s) == "";
  }

  lemma BlankProject(fold: Folding, p: Project)
    requires KeepsEmptiness(fold)
    ensures "" in ProjectKey(fold)(CleanProject(p)) <==> Trimmed(p.projectName) == ""
  {
    hide Trimmed;
    TrimmedBlank(fold, p.projectName);
  }

  lemma BlankOrganization(fold: Folding, o: Organization)
    requires KeepsEmptiness(fold)
    ensures "" in OrganizationKey(fold)(CleanOrganization(fold)(o)) <==> Trimmed(o.organizationName) == ""
  {
    hide Trimmed, NormalList;
    TrimmedBlank(fold, o.organizationName);
  }

  lemma BlankTarget(fold: Folding, t: Target)
    requires KeepsEmptiness(fold)
    ensures "" in TargetKey(fold)(CleanTarget(t)) <==> Trimmed(t.organization) == "" || Trimmed(t.project) == ""
  {
    hide Trimmed, CleanPoll;
    TrimmedBlank(fold, t.organization);
    TrimmedBlank(fold, t.project);
  }

  /** Enters the selected organisation and project in the lists, or takes the organisation from them. */
  method EnterSelection(fold: Folding, settings: Settings) returns (c: Settings)
    ensures c == Entered(fold, settings)
  {
    hide Trimmed, IndexOf, OrganizationKey, ProjectKey;
    c := settings;
    if c.organization != "" {
      var index := FindIndex(c.organizations, OrganizationKey(fold), [fold(Trimmed(c.organization))]);
      if index < 0 {
        var entry := Organization("", c.organization, "", []);
        if c.project != "" {
          assert [] + [NewProject(c.project)] == [NewProject(c.project)];
          entry := entry.(projects := entry.projects + [NewProject(c.project)]);
        }
        c := c.(organizations := c.organizations + [entry]);
      } else if c.project != "" {
        var projects := c.organizations[index].projects;
        var known := FindIndex(projects, ProjectKey(fold), [fold(Trimmed(c.project))]);
        if known < 0 {
          c := c.(organizations :=
                  c.organizations[index := c.organizations[index].(projects := projects + [NewProject(c.project)])]);
        }
      }
    } else if c.organizations != [] {
      c := c.(organization := c.organizations[0].organizationName);
    }
  }

  /** Takes a missing project from the selected organisation. */
  method FillProject(fold: Folding, settings: Settings) returns (c: Settings)
    ensures c == Filled(fold, settings)
  {
    hide Trimmed, IndexOf, OrganizationKey;
    c := settings;
    if c.organization != "" {
      var index := FindIndex(c.organizations, OrganizationKey(fold), [fold(Trimmed(c.organization))]);
      if index >= 0 && c.project == "" && c.organizations[index].projects != [] {
        c := c.(project := c.organizations[index].projects[0].projectName);
      }
    }
  }

  /** normalizeOrganizations. */
  method NormalizeOrganizations(fold: Folding, config: Settings) returns (c: Settings)
    requires KeepsEmptiness(fold)
    ensures c == Normalized(fold, config)
  {
    hide Trimmed, NormalList, Entered, Filled;
    var organizations := NormalizeOrganizationList(fold, config.organizations);
    var targets := NormalizeTargets(fold, config.notificationTargets);
    var user := config.currentUser;
    c := Settings(Trimmed(config.organization), Trimmed(config.project),
                  User(Trimmed(user.id), Trimmed(user.displayName), Trimmed(user.uniqueName), Trimmed(user.email)),
                  organizations, targets);
    c := EnterSelection(fold, c);
    c := FillProject(fold, c);
  }
}
