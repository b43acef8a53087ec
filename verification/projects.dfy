/** The projects section: the fixed project list, the filter buttons'
    effect on the visible list, and the tag chips of a card. */
module Projects {
  import opened Seqs

  /** A project card's data; image and link URLs are presentation only and
      are not modelled. */
  datatype Project = Project(id: int, title: string, tags: seq<string>, featured: bool)

  const NovelNest := Project(1, "NovelNest - A Second Hand Book Platform",
      ["React", "Node.js", "MongoDB", "Express", "Fullstack", "Frontend", "Backend", "Stripe", "Tailwind CSS", "Cloudinary"], true)
  const Wildlife := Project(2, "Wildlife Sanctuary Api",
      ["Nodejs", "ExpressJs", "MongoDb", "Backend", "RestfulAPI"], true)
  const TripPlanner := Project(3, "Smart AI Trip Planner",
      [" React.js", "Tailwind CSS", "OpenAI API", "Node.js", "MongoDB", "Express.js", "Fullstack", "Frontend", "Backend"], false)
  const Dynamo := Project(4, "Dynamo Dashboard",
      ["TailwindCSS", "Reactjs", "Frontend"], false)
  const SocietySite := Project(5, "Computer Engineering Society Website",
      ["HTML", "CSS", "Javascript", "Frontend"], true)
  const InstaClone := Project(6, "InstaClone",
      ["HTML", "CSS", "Frontend"], false)

  /** The list the section sets on mount, in its order. */
  const ProjectData: seq<Project> := [NovelNest, Wildlife, TripPlanner, Dynamo, SocietySite, InstaClone]

  /** Whether a project passes a filter other than "all" and "featured":
      `tags.includes(filter)`, exact and case-sensitive. */
  predicate HasTag(p: Project, tag: string)
  {
    tag in p.tags
  }

  predicate IsFeatured(p: Project)
  {
    p.featured
  }

  /** The filter effect: "all" keeps the list, "featured" keeps the
      featured projects, anything else keeps the projects carrying that
      exact tag; always in list order. */
  function FilterProjects(projects: seq<Project>, filter: string): (r: seq<Project>)
    ensures filter == "all" ==> r == projects
    ensures filter == "featured" ==>
      (forall i :: 0 <= i < |r| ==> r[i].featured)
      && (forall i :: 0 <= i < |projects| && projects[i].featured ==> projects[i] in r)
      && |r| == CountWhere(projects, IsFeatured)
    ensures filter != "all" && filter != "featured" ==>
      (forall i :: 0 <= i < |r| ==> filter in r[i].tags)
      && (forall i :: 0 <= i < |projects| && filter in projects[i].tags ==> projects[i] in r)
      && |r| == CountWhere(projects, (p: Project) => HasTag(p, filter))
  {
    if filter == "all" then projects
    else if filter == "featured" then Keep(projects, IsFeatured)
    else Keep(projects, (p: Project) => HasTag(p, filter))
  }

  /** Every filtered list is the project list with some projects removed. */
  lemma FilterIsSubsequence(projects: seq<Project>, filter: string)
    ensures SubseqOf(FilterProjects(projects, filter), projects)
  {
    if filter == "all" {
      SubseqRefl(projects);
    } else if filter == "featured" {
      KeepIsSubseq(projects, IsFeatured);
    } else {
      KeepIsSubseq(projects, (p: Project) => HasTag(p, filter));
    }
  }

  lemma {:induction false} SubseqRefl<T>(s: seq<T>)
    ensures SubseqOf(s, s)
    decreases |s|
  {
    if |s| > 0 {
      SubseqRefl(s[1..]);
    }
  }

  /** A filter matches a project when it is "all", or "featured" and the
      project is featured, or a tag of the project. */
  predicate Matches(p: Project, filter: string)
  {
    filter == "all" || (filter == "featured" && p.featured)
    || (filter != "featured" && filter in p.tags)
  }

  /** The "no projects found" message shows exactly when no project
      matches the filter. */
  lemma EmptyStateIff(projects: seq<Project>, filter: string)
    ensures |FilterProjects(projects, filter)| == 0 <==>
      forall i :: 0 <= i < |projects| ==> !Matches(projects[i], filter)
  {
    var r := FilterProjects(projects, filter);
    if |r| == 0 && filter == "all" {
      assert |projects| == 0;
    }
    if |r| > 0 && filter != "all" {
      assert r[0] in multiset(projects);
      var i :| 0 <= i < |projects| && projects[i] == r[0];
      assert Matches(projects[i], filter);
    }
  }

  /** `Keep` over the fixed list, one project at a time. */
  lemma KeepOnProjectData(p: Project -> bool)
    ensures Keep(ProjectData, p) ==
      (if p(NovelNest) then [NovelNest] else []) + ((if p(Wildlife) then [Wildlife] else [])
      + ((if p(TripPlanner) then [TripPlanner] else []) + ((if p(Dynamo) then [Dynamo] else [])
      + ((if p(SocietySite) then [SocietySite] else []) + (if p(InstaClone) then [InstaClone] else [])))))
  {
    var s6 := [InstaClone];
    var s5 := [SocietySite] + s6;
    var s4 := [Dynamo] + s5;
    var s3 := [TripPlanner] + s4;
    var s2 := [Wildlife] + s3;
    var s1 := [NovelNest] + s2;
    assert ProjectData == s1;
    KeepCons(InstaClone, [], p);
    assert [InstaClone] + [] == s6;
    KeepCons(SocietySite, s6, p);
    KeepCons(Dynamo, s5, p);
    KeepCons(TripPlanner, s4, p);
    KeepCons(Wildlife, s3, p);
    KeepCons(NovelNest, s2, p);
  }

  /** The "Featured" button shows projects 1, 2 and 5. */
  lemma FeaturedOnProjectData()
    ensures FilterProjects(ProjectData, "featured") == [NovelNest, Wildlife, SocietySite]
  {
    KeepOnProjectData(IsFeatured);
  }

  /** Tags match exactly: project 3's tag " React.js" starts with a space,
      so filtering by "React.js" finds nothing and shows the empty state. */
  lemma ExactTagMatch()
    ensures FilterProjects(ProjectData, "React.js") == []
  {
    var t := "React.js";
    NoProjectTagged(t);
    KeepOnProjectData((p: Project) => HasTag(p, t));
  }

  lemma NoProjectTagged(t: string)
    requires t == "React.js"
    ensures !HasTag(NovelNest, t) && !HasTag(Wildlife, t) && !HasTag(TripPlanner, t)
    ensures !HasTag(Dynamo, t) && !HasTag(SocietySite, t) && !HasTag(InstaClone, t)
  {
  }

  /** With the leading space, " React.js" finds project 3 alone. */
  lemma SpacedTagMatch()
    ensures FilterProjects(ProjectData, " React.js") == [TripPlanner]
  {
    var t := " React.js";
    OnlyTripPlannerTagged(t);
    KeepOnProjectData((p: Project) => HasTag(p, t));
  }

  lemma OnlyTripPlannerTagged(t: string)
    requires t == " React.js"
    ensures !HasTag(NovelNest, t) && !HasTag(Wildlife, t) && HasTag(TripPlanner, t)
    ensures !HasTag(Dynamo, t) && !HasTag(SocietySite, t) && !HasTag(InstaClone, t)
  {
  }

  /** A card's tag row: the first three tags, then a "+N more" chip whose N
      is the number of tags not shown. */
  datatype TagRow = TagRow(shown: seq<string>, more: nat)

  function TagSummary(tags: seq<string>): (r: TagRow)
    ensures r.shown <= tags
    ensures |r.shown| == if |tags| < 3 then |tags| else 3
    ensures r.more > 0 <==> |tags| > 3
    ensures r.more > 0 ==> |r.shown| + r.more == |tags|
  {
    TagRow(Take(tags, 3), if |tags| > 3 then |tags| - 3 else 0)
  }
}
